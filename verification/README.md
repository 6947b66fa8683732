# A verified model of the Julia MMTk binding

This project models the self-contained algorithms of mmtk-julia, the Rust side of Julia's MMTk
garbage-collector binding, and proves what they keep, return and leave alone. `dafny verify
dfyconfig.toml` checks all of it.

| module | what it models |
|---|---|
| `Bits` | 64-bit words, wrap-around arithmetic, the bitwise operators, pointer tags |
| `Bitfields` | the bindgen bitfield accessors, the packers, and the loop-free accessors |
| `Slots` | simple and offset slots, memory slices, what happens to slots when objects move |
| `GcStack`, `StackFacts` | the walk of a task's shadow stack, also when the stack has been copied out; what it reports root by root |
| `Backtrace` | the parser of the backtrace buffer |
| `MutatorRoots`, `RootFacts` | the roots of one mutator thread and their packets; which objects they are |
| `ObjectScan`, `ScanFacts`, `ScanKinds` | the enumeration of an object's pointer slots, and what it enumerates for each kind of object |
| `ObjectModel`, `ObjectSizes`, `ObjectCopy` | object sizes and starts, what the sizes cover, their agreement with the scanner, and the byte copy; scanning and sizing the copy |
| `InteriorPointers` | pointers into the middle of arrays and modules, from the scan to the update |
| `FinalizerSpec`, `Finalizer`, `MarkFacts`, `FinalizerPass` | finalizer lists as pairs; the in-place sweep and the word-level marking; what becomes of each entry; the whole pass |
| `Overallocation`, `Trigger`, `TriggerFacts`, `TriggerRuns` | the heap growth curve, the heap-target controller, what each event does to it, and every run of it |
| `Handshake` | the stop-the-world protocol as a machine of atomic steps |
| `Wrappers`, `Sequences` | the option type; suffixes, concatenations and other sequence facts |

Code that changes state in the source is a class or a method here (`BitfieldUnit`, `WordMemory`,
`SlotIterator`, `ArrayList`, `Tracer`, `JuliaGCTrigger`, every scanning loop), proved against a
function of the state before; the properties are then lemmas about that function. The collector itself
appears only as a set of surviving objects and a forwarding map. What the C runtime answers (the
stack base of a thread, how a memory object stores its data, whether an address is managed, the clock)
is a parameter. Release behaviour is modelled: debug assertions are not.

## What the proofs found

Some statements one would like to make of the code do not hold on every input. Each comes with an
input or a run that breaks it, and with the condition under which it holds.

- `mark_finlist` walks words and means pairs. It stays aligned with the pairs exactly when each pair but
  the last has a tag-1 object or a finalizer word without tag 1 (`InStepExact`, `WalkIsPairMapExactly`,
  `OutOfStepExample`).
- The cap of `mmtk_overallocation` compares a sum that can wrap around, and then fails to cap
  (`CapExact`). Whole pages suffice, and a run of the trigger gets there (`CapCanFail`, `CapFailsInRun`).
- The handshake is not safe for every interleaving of several blocking threads
  (`TwoBlockersBreakSafety`). `resume_mutators` may clear BLOCK_FOR_GC safely exactly when no mutator has
  announced itself without having raised WORLD_HAS_STOPPED (`ClearIsSafeExactly`); runs that keep to that
  are safe for any number of blocking threads (`QuietSafety`), and runs with one blocking thread at a
  time do keep to it (`StopTheWorldSafety`).
- Even with one blocking thread, a stop request made between the two stores of `resume_mutators` can be
  lost for good (`StopsCanBeLost`, `LostStopIsForever`, `LostStopOnlyBetweenStores`).
- The comment at mmtk/src/gc_trigger.rs:187 speaks of three consecutive thrashing cycles, but the counter
  is increased only when it is already at least 4 (line 171). The model follows the code: in every run
  counter and flag stay 0, so the thrashing branch is never taken (`ReachableRun`).

Also worth knowing: nothing ever clears the pending pages, so a page reported once counts towards the
heap size for the rest of the run (`PendingNeverCleared`); and a module that has just been copied is scanned
through the list of usings of its old copy unless its pointer is updated first (`UncorrectedModuleRows`).

## Model

| member | source | states |
|---|---|---|
| Bits.TagsAreBits | mmtk/src/julia_finalizer.rs:117-125 | the arithmetic used for pointer tags (remainders, rounding down) is the source's bitwise and, or, not and shift on every 64-bit word |
| Bits.AndHighMask | mmtk/src/object_model.rs:328-330 | clearing the low k bits of a word rounds it down to a multiple of 2^k |
| Bitfields.BitfieldUnit.Default | mmtk/src/julia_types.rs:1506 | a new unit of bytes stands for the number zero |
| Bitfields.BitfieldUnit.GetBit | mmtk/src/julia_types.rs:29-34 | reads bit `index` of the little-endian number the bytes stand for |
| Bitfields.BitfieldUnit.SetBit | mmtk/src/julia_types.rs:55-60 | replaces that one bit of the number and no other |
| Bitfields.BitfieldUnit.Get | mmtk/src/julia_types.rs:71-87 | the bit-by-bit loop returns the number shifted right by the offset, modulo 2^width |
| Bitfields.BitfieldUnit.Set | mmtk/src/julia_types.rs:107-121 | afterwards the field holds the low bits of the value and every bit outside the field is as before |
| Bitfields.ChangeReplaces | mmtk/src/julia_types.rs:45-60 | changing one bit of one byte changes exactly one bit of the whole number |
| Bitfields.SetThenGet | mmtk/src/julia_types.rs:71-121 | `get` after `set` gives the low `bit_width` bits of the value |
| Bitfields.SetKeepsOthers | mmtk/src/julia_types.rs:107-121 | `set` leaves every disjoint field readable as before |
| Bitfields.PackThenGet | mmtk/src/julia_types.rs:1496-1540 | packing any list of adjacent fields and then reading any one of them gives it back |
| Bitfields.NewLayoutFlags | mmtk/src/julia_types.rs:1496-1540 | each of the eight layout flags reads back as packed, cut to its width |
| Bitfields.NewContextFlags | mmtk/src/julia_types.rs:473-487 | `copy_stack` and `started` both read back as packed, cut to 31 bits and one bit |
| Bitfields.CustomAccessorsAgree | mmtk/src/util.rs:42-62 | the loop-free accessors equal the looping `get(1, 2)` and `get(0, 31)` on every little-endian storage |
| Slots.WordMemory.Load | mmtk/src/slots.rs:76-82 | a slot yields the object it refers to, an offset slot after taking its offset off, and zero is no object |
| Slots.WordMemory.Store | mmtk/src/slots.rs:84-88 | only the slot's word changes, to the object's address plus the slot's offset |
| Slots.SlotRefers | mmtk/src/slots.rs:76-89 | a slot refers to no object exactly when its word is zero or equal to its offset, and is then left as it is; else its word is the object's address plus the offset |
| Slots.WordMemory.Copy | mmtk/src/slots.rs:121-156 | memmove: for every overlap of source and target, memory afterwards is the old one with the target words replaced by the original source words |
| Slots.MovedIs | mmtk/src/slots.rs:121-156 | word by word, that leaves only one possible memory |
| Slots.MovedUp | mmtk/src/slots.rs:135-144 | in the forward branch no source word still to be read has been overwritten |
| Slots.MovedDown | mmtk/src/slots.rs:145-154 | nor in the backward branch |
| Slots.SlotIterator.constructor | mmtk/src/slots.rs:102-107 | the iterator has the slots of all the slice's words still to produce |
| Slots.SlotIterator.Next | mmtk/src/slots.rs:164-176 | produces the first remaining slot and keeps the others, or ends exactly when none remain |
| Slots.StoreThenLoad | mmtk/src/slots.rs:76-89 | a non-null reference stored through either kind of slot is read back |
| Slots.ForwardKeepsOthers | mmtk/src/slots.rs:76-89 | updating a list of slots changes no word that none of them names |
| Slots.ForwardEach | mmtk/src/slots.rs:76-89 | updating a list of slots with distinct addresses updates each word exactly once, whatever the order |
| Slots.InteriorPointerSurvives | mmtk/src/julia_scanning.rs:223-242 | for any forwarding map and any slot order, an array's data pointer keeps its distance from the moved memory object |
| InteriorPointers.ArrayScanShape | mmtk/src/julia_scanning.rs:223-242 | the scan of an array reports distinct slots, among them the memory object's, and the data pointer's exactly when it is managed and past that object |
| InteriorPointers.ArrayPointerSurvives | mmtk/src/julia_scanning.rs:223-242 | updating the slots that scan reports moves the memory object and keeps the data pointer's distance from it; an unreported data pointer stays |
| InteriorPointers.ModuleSlotsDistinct | mmtk/src/julia_scanning.rs:120-178 | a module's scan visits no address twice when its list of usings lies apart from its fields |
| InteriorPointers.ModulePointerSurvives | mmtk/src/julia_scanning.rs:156-164 | a module's pointer to its inline list of usings, updated through its offset slot, points into the moved module |
| Slots.TagSurvives | mmtk/src/julia_scanning.rs:442-446 | a root tagged 1 keeps its tag and refers to the moved object after an update through its offset-1 slot |
| GcStack.ScanGcStack | mmtk/src/julia_scanning.rs:388-468 | panics or reports the stack buffer's slot and then exactly the slots of the frame chain, read through the task's window |
| GcStack.WalkFrames | mmtk/src/julia_scanning.rs:415-468 | on every finite frame chain the loop stops and reports each frame's slots, frame after frame |
| GcStack.ScanFrame | mmtk/src/julia_scanning.rs:421-453 | the loop over one frame reports that frame's slots: all targets of an indirect frame, the decoded roots of a direct one |
| GcStack.DecodeInvertsEncode | mmtk/src/julia_scanning.rs:424-453 | whatever valid roots were laid out in a frame, reading the words gives back those roots |
| GcStack.EncodeInvertsDecode | mmtk/src/julia_scanning.rs:424-453 | every sequence of frame words reads as valid roots whose words are those of the frame, up to one missing function word |
| GcStack.ReportCount | mmtk/src/julia_scanning.rs:429-450 | as many slots are reported as there are plain and tag-1 roots, none for malloced pointers tagged 3 |
| GcStack.RootReported | mmtk/src/julia_scanning.rs:429-450 | every managed root is reported in order at the address of its own first word, plain or with offset 1 according to its tag |
| GcStack.FrameExact | mmtk/src/julia_scanning.rs:428-450 | a direct frame reports exactly the slots of the roots laid out in it |
| GcStack.IndirectFrameExact | mmtk/src/julia_scanning.rs:425-428 | an indirect frame reports nroots >> 2 slots, and slot i is where the window sends the address word i holds |
| StackFacts.FrameWords | mmtk/src/julia_scanning.rs:416-436 | where the count, the flag, the frame before and the roots of a frame are read |
| StackFacts.StackLength | mmtk/src/julia_scanning.rs:421-467 | the walk reports as many slots as all the frames of the chain together |
| StackFacts.StackSlotAt | mmtk/src/julia_scanning.rs:421-467 | the slots of every frame, the oldest included, come in order after those of the frames before it |
| StackFacts.FrameLaidOut | mmtk/src/julia_scanning.rs:424-453 | a direct frame reports the slots of the roots laid out in it, also when the function word of the last one is missing |
| StackFacts.FrameWordByWord | mmtk/src/julia_scanning.rs:424-453 | a direct frame reports a slot if and only if a root starts at its word: an even word plainly, one ending in 01 with offset 1 and the next word skipped, one ending in 11 not at all |
| StackFacts.EveryRootReported | mmtk/src/julia_scanning.rs:421-467 | every managed root of every direct frame of the chain is reported, at its own address and with its tag, in its place |
| StackFacts.EveryTargetReported | mmtk/src/julia_scanning.rs:421-467 | every target of every indirect frame of the chain is reported in its place |
| StackFacts.SingleFrame | mmtk/src/julia_scanning.rs:415-459 | a stack of one frame with one plain root reports that root |
| StackFacts.WindowFinds | mmtk/src/julia_scanning.rs:401-413 | a word of the stack is looked for in the buffer exactly when the stack has been copied out and the task does not run |
| StackFacts.TaskReports | mmtk/src/julia_scanning.rs:388-468 | a scan panics exactly when a copied-out stack has no thread; else it reports the buffer's slot, if there is one, and all slots of all frames |
| GcStack.CopyOutHolds | mmtk/src/julia_scanning.rs:404-413 | copying the stack of any memory into its buffer, whatever the buffer held, makes the buffer hold the stack and changes nothing else |
| GcStack.NotedCopyHoldsStack | mmtk/src/julia_scanning.rs:404-413 | so does a copy after which the buffer's address was noted in the task, as far as the stack goes |
| GcStack.ReadableExactly | mmtk/src/julia_scanning.rs:480-494 | for a copy that changes nothing else, an address reads as before, for every memory, if and only if it is in the stack or outside the buffer |
| GcStack.StackFramesKept | mmtk/src/julia_scanning.rs:415-494 | any copy of the stack keeps the words the walk reads of frames in the stack, whatever else has changed in memory |
| GcStack.ReadableFramesKept | mmtk/src/julia_scanning.rs:415-494 | a copy that changes nothing else also keeps those of frames anywhere but in the buffer |
| GcStack.SameChain | mmtk/src/julia_scanning.rs:455-466 | when the words read of the frames are kept, the copied stack has the same frame chain as the original |
| GcStack.CopiedStackSimulation | mmtk/src/julia_scanning.rs:401-494 | for every chain whose words are kept, scanning the copy through its window reports, in order and kind for kind, the relocated slots of a scan of the original |
| GcStack.CopiedTaskSimulation | mmtk/src/julia_scanning.rs:388-468 | the same for a whole task that was running or had no buffer before: the new buffer's slot first, then the relocation of the stack's slots before the copy |
| MutatorRoots.CopiedTaskObjects | mmtk/src/scanning.rs:34-81 | copying a task's stack out loses no root: the objects collected are the new buffer and then those of the original stack, in order |
| MutatorRoots.CopyOutKeepsRoots | mmtk/src/scanning.rs:34-81 | so it is for a copy-out from beginning to end, for every memory, when frames and roots lie in the stack |
| GcStack.WindowIsBuffer | mmtk/src/julia_scanning.rs:404-413 | the window sends [stackbase - size, stackbase) onto [stkbuf, stkbuf + size) and nothing else anywhere |
| Backtrace.DescriptorBits | mmtk/src/julia_scanning.rs:629-639 | the two counts are the descriptor's low three bits and the three above them |
| Backtrace.FirstNative | mmtk/src/julia_scanning.rs:616-627 | a first word other than the all-ones marker is an entry by itself |
| Backtrace.FirstExtended | mmtk/src/julia_scanning.rs:621-648 | the marker is followed by a descriptor, its values and its integers, as many as the descriptor says, and then by the next entry |
| Backtrace.ParseInvertsEncode | mmtk/src/julia_scanning.rs:614-639 | parsing a concatenation of valid entries gives back the entries, even when payload words equal the marker |
| Backtrace.EncodeInvertsParse | mmtk/src/julia_scanning.rs:614-639 | a buffer that parses is the encoding of the entries found, all valid |
| Backtrace.ReadEntry | mmtk/src/scanning.rs:109-132 | one turn of the loop yields the values of the entry it stands at and stops at the start of the next one |
| Backtrace.ScanBacktrace | mmtk/src/scanning.rs:107-133 | the loop ends and pushes exactly the values of all extended entries in order |
| RootFacts.EveryValue | mmtk/src/scanning.rs:107-133 | value j of extended entry k is found right after the values of the entries before it |
| MutatorRoots.VisitSlots | mmtk/src/scanning.rs:34-48 | collects the object of each slot in order, skipping slots that hold none |
| MutatorRoots.RootScanTask | mmtk/src/scanning.rs:60-81 | collects the objects on one task's stack, nothing for an absent task, and passes a panic on |
| MutatorRoots.ScanLiveTasks | mmtk/src/scanning.rs:84-93 | collects the objects on the stacks of all live tasks in order |
| MutatorRoots.ScanTasks | mmtk/src/scanning.rs:82-97 | collects the stacks of the root, live, current, next and previous tasks in that order |
| MutatorRoots.OwnNodes | mmtk/src/scanning.rs:59-133 | the thread's own roots are its four tasks, its pending exception and the backtrace values |
| MutatorRoots.PushWork | mmtk/src/scanning.rs:137-148 | packets concatenate to the buffer, none is empty or over 4096, and only the last may be short |
| MutatorRoots.ScanRootsInMutatorThread | mmtk/src/scanning.rs:24-149 | stack objects become transitively pinned roots and own objects pinned roots, each exactly once and in order; it panics exactly when a stack scan does |
| RootFacts.ObjectsAreHeld | mmtk/src/scanning.rs:34-48 | visiting slots collects, in order, each slot's word less its offset, unless that is zero |
| RootFacts.TasksInOrder | mmtk/src/scanning.rs:82-97 | which tasks are scanned, in which order |
| RootFacts.PanicExactly | mmtk/src/scanning.rs:60-97 | scanning the tasks panics exactly when the scan of a task that is there does |
| RootFacts.EveryStackObject | mmtk/src/scanning.rs:34-97 | every object in a slot that the scan of one of these tasks reports is handed over |
| RootFacts.OwnObjectsAre | mmtk/src/scanning.rs:59-133 | the thread's own roots are exactly its tasks and exception that are there and the values of its backtrace buffer, in order |
| RootFacts.EveryOwnObject | mmtk/src/scanning.rs:59-133 | each of them is handed over |
| ObjectScan.VisitRow | mmtk/src/julia_scanning.rs:116-119 | the row loop visits every stride-th address from the start and none at or after the end |
| ObjectScan.StridedIsRow | mmtk/src/julia_scanning.rs:116-119 | stepping until the end is the same as counting the steps in advance |
| ObjectScan.VisitTable | mmtk/src/julia_scanning.rs:343-348 | the pointer-table loop visits base + 8 * offset for each entry of the table, in any of the three widths |
| ObjectScan.VisitElements | mmtk/src/julia_scanning.rs:286-315 | the nested loops visit each pointer offset of each element |
| ObjectScan.VisitModule | mmtk/src/julia_scanning.rs:120-178 | a module's five fields, the interior pointer of an inline list of usings, and every fourth word of the list |
| ObjectScan.VisitTask | mmtk/src/julia_scanning.rs:179-200 | a task's shadow stack and then its fields |
| ObjectScan.VisitGenericMemory | mmtk/src/julia_scanning.rs:243-322 | the owner slot, nothing, a row, the single-pointer path or the nested loops, or a panic, by the same branches |
| ObjectScan.VisitFields | mmtk/src/julia_scanning.rs:332-373 | a datatype's fields in the width of its table, or a panic for an opaque type |
| ObjectScan.ScanJuliaObject | mmtk/src/julia_scanning.rs:68-374 | the whole scan reports the slots its specification lists, and panics when that does |
| ScanKinds.TagIsMasked | mmtk/src/julia_scanning.rs:39-46 | an object's tag is its header word with the low four bits masked off |
| ScanKinds.VectorElements | mmtk/src/julia_scanning.rs:108-119 | a simple vector reports exactly its elements: slot k at obj + 8 + 8k, as many as its length, the last ending where the vector ends |
| ScanKinds.ObjectFields | mmtk/src/julia_scanning.rs:332-373 | a plain datatype object reports exactly its pointer fields, each at the place its entry in the type's table gives |
| ScanKinds.NoFields | mmtk/src/julia_scanning.rs:328-373 | a weak reference, or an object without pointer fields, reports nothing; an opaque layout panics |
| ScanKinds.ArrayFields | mmtk/src/julia_scanning.rs:223-242 | an array reports its fields and, before them, its managed data pointer past the memory object, with the distance |
| ScanKinds.OwnerReported | mmtk/src/julia_scanning.rs:254-259 | a memory that borrows its data reports its owner's slot alone |
| ScanKinds.MemoryElements | mmtk/src/julia_scanning.rs:264-319 | a memory reports length times pointers-per-element slots |
| ScanKinds.MemoryElement | mmtk/src/julia_scanning.rs:264-319 | slot k * n + j of a memory is pointer j of element k |
| ScanKinds.ElementPointers | mmtk/src/julia_scanning.rs:264-315 | a boxed element is one pointer; any other has those of its layout's table |
| ScanKinds.ModuleFields | mmtk/src/julia_scanning.rs:120-178 | exactly which slots a module reports |
| ScanKinds.TaskFields | mmtk/src/julia_scanning.rs:179-200 | a task reports what its stack does and then as many slots as it has pointer fields, and panics when its stack does |
| ScanKinds.TaskField | mmtk/src/julia_scanning.rs:191-200 | field j of a task is given by byte j of its type's table |
| ScanKinds.FieldOffset | mmtk/src/julia_scanning.rs:597-612 | a type's table starts after the layout and its field descriptors, and entry j is read in the layout's width |
| ScanKinds.NothingInSymbolsAndBuffers | mmtk/src/julia_scanning.rs:81-85 | symbols and buffers report nothing |
| ScanKinds.NothingInOtherSmallTypes | mmtk/src/julia_scanning.rs:106-206 | nor do the small types that are not listed |
| ScanKinds.CorruptTagPanics | mmtk/src/julia_scanning.rs:207-221 | a large tag that names no datatype panics |
| ScanFacts.ElementsCount | mmtk/src/julia_scanning.rs:286-315 | length times npointers slots are visited |
| ScanFacts.ElementsInOrder | mmtk/src/julia_scanning.rs:286-315 | slot number k * n + j is base + 8 * (k * elsize + offset j) |
| ScanFacts.ElementsInside | mmtk/src/julia_scanning.rs:274-315 | with distinct offsets below elsize, every slot is inside the data and none is visited twice |
| ScanFacts.SinglePointerPath | mmtk/src/julia_scanning.rs:280-285 | stepping from pointer to pointer visits what the nested loops would |
| ScanFacts.RowIsElements | mmtk/src/julia_scanning.rs:266-273 | a row of words is a run of elements with one pointer each |
| ScanFacts.GenericMemoryExact | mmtk/src/julia_scanning.rs:264-319 | the boxed, single-pointer, 8-bit and 16-bit paths all visit each element, each pointer offset, in order and nothing else |
| ScanFacts.TableRoundTrip | mmtk/src/julia_scanning.rs:597-612 | offsets written as 8-, 16- or 32-bit little-endian numbers are read back, so the scan does not depend on the width |
| ObjectModel.LltAlignIsMask | mmtk/src/object_model.rs:327-330 | rounding up is the source's mask expression for every power of two, short of overflow |
| ObjectModel.LltAlignLeast | mmtk/src/object_model.rs:327-330 | the result is the least multiple of the alignment not below the size |
| ObjectModel.AlignedMemorySize | mmtk/src/object_model.rs:292 | inlined data starts 16 bytes after a memory object |
| ObjectSizes.InlineMemorySize | mmtk/src/object_model.rs:282-293 | an inlined memory takes the least multiple of 16 that covers header, memory words, elements and, for unions, a selector byte each |
| ObjectSizes.ElementInside | mmtk/src/object_model.rs:282-293 | every byte of every element and every selector byte is inside |
| ObjectSizes.NineUnions | mmtk/src/object_model.rs:287-293 | nine 8-byte union elements take 112 bytes |
| ObjectSizes.BorrowingMemorySize | mmtk/src/object_model.rs:294-297 | a memory with its data elsewhere takes 32 bytes |
| ObjectSizes.DatatypeSize | mmtk/src/object_model.rs:304-312 | a datatype object takes the least multiple of 16 that covers header and fields |
| ObjectSizes.VectorSize | mmtk/src/object_model.rs:209-219 | so does a simple vector, for header, length and elements |
| ObjectSizes.StringSize | mmtk/src/object_model.rs:238-249 | a string takes the least multiple of 8 that covers header, length, bytes and final zero |
| ObjectSizes.FixedSizes | mmtk/src/object_model.rs:220-237 | a module takes 400 bytes, a task 240 |
| ObjectSizes.OtherSmallSizes | mmtk/src/object_model.rs:250-261 | the other small types are sized by their layout |
| ObjectSizes.BufferSize | mmtk/src/object_model.rs:185-187 | a buffer's size is the word before its header; a corrupt tag panics |
| ObjectSizes.StartsAtHeader | mmtk/src/object_model.rs:152-159 | where an object starts: 48 bytes before it in the large object space, 16 for a buffer, else 8 |
| ObjectSizes.SelectorCarried | mmtk/src/object_model.rs:84-87 | a copy of an inlined union memory has every selector byte |
| ObjectModel.MemoryInside | mmtk/src/julia_scanning.rs:261-322 | the slots of a generic memory lie in its element data, wherever that is stored |
| ObjectModel.TaskInside | mmtk/src/julia_scanning.rs:179-200 | a task's stack slots come first, and the slots of its fields lie inside [object start, object start + size) |
| ObjectModel.ModuleInside | mmtk/src/object_model.rs:220-228 | the slots of a module with inline usings lie in the module |
| ObjectModel.ScanInsideObject | mmtk/src/object_model.rs:178-313 | every slot the scanner reports for a vector, inlined memory, array, module or datatype object lies inside [object start, object start + size) |
| ObjectModel.CopyBytes | mmtk/src/object_model.rs:84-87 | the bytes at the target become those of the source and every other byte is as before |
| ObjectModel.Copy | mmtk/src/object_model.rs:59-118 | moves exactly the object's bytes and returns the copy's reference, or panics and changes nothing unless the header is 8 bytes |
| ObjectModel.CopyCarriesWord | mmtk/src/object_model.rs:84-88 | a word inside the copied bytes is found at the same place in the copy |
| ObjectModel.CopyCarriesSlots | mmtk/src/object_model.rs:59-118 | after a copy every slot the scanner reported is inside the new object, at the same relative place and with the same contents |
| ObjectCopy.ScanOfCopy | mmtk/src/object_model.rs:59-118 | scanning a copied vector, array or plain datatype reports exactly the original's slots, each moved by the distance of the copy, and the copy has the original's size |
| ObjectCopy.ScanOfCopiedMemory | mmtk/src/object_model.rs:94-100 | the same for a generic memory with inlined data, once its data pointer points at the copy's own data |
| ObjectCopy.ScanOfCopiedModule | mmtk/src/julia_scanning.rs:120-178 | the same for the slots of a module, once its pointer to its usings has moved with it |
| ObjectCopy.UncorrectedModuleRows | mmtk/src/julia_scanning.rs:166-178 | until then the scan of the copy goes through the list of usings at its old place |
| ObjectCopy.OwnerInside | mmtk/src/object_model.rs:294-297 | the owner slot of a memory that borrows its data, kept behind the memory's own words, lies in the word the size counts for it |
| FinalizerSpec.SelectStable | mmtk/src/julia_finalizer.rs:140-183 | a sweep is stable: each pair takes the place its rank among the pairs of the same fate gives it |
| FinalizerSpec.SweepConserves | mmtk/src/julia_finalizer.rs:140-183 | freed, old and retained pairs together are the non-zero pairs, as multisets |
| FinalizerSpec.SelectOnly | mmtk/src/julia_finalizer.rs:152-158 | no pair reaches a list that is not the one for its fate |
| FinalizerSpec.NothingRetained | mmtk/src/julia_finalizer.rs:155-158 | with a marked list nothing is retained, without one nothing is moved |
| FinalizerSpec.TracedByTag | mmtk/src/julia_finalizer.rs:193-227 | what is traced: object and finalizer, only the object, only the finalizer, or neither, by the two tags; a native finalizer may be any word |
| FinalizerSpec.TagsSurviveMarking | mmtk/src/julia_finalizer.rs:220-224 | marking keeps both tags, zeros and native finalizers when objects move to addresses aligned to four |
| MarkFacts.EachFollows | mmtk/src/julia_finalizer.rs:193-227 | every marked entry refers to its object, and unless native to its finalizer, at the new address under the same tag 1; zeros, words tagged 2 and native finalizers are as before |
| MarkFacts.NothingMoves | mmtk/src/julia_finalizer.rs:218-224 | a list none of whose objects moves is left as it is |
| MarkFacts.WalkFollows | mmtk/src/julia_finalizer.rs:187-228 | the walk of any list, in step or not, changes a word only to follow its object |
| MarkFacts.TraceIsEntries | mmtk/src/julia_finalizer.rs:193-227 | what is traced, entry after entry: the object and then the finalizer, those that are to be traced |
| FinalizerSpec.WalkIsPairMap | mmtk/src/julia_finalizer.rs:187-228 | the word-level walk is the pair-level map, for words and for the trace, when the pairs keep step |
| FinalizerSpec.WalkIsPairMapExactly | mmtk/src/julia_finalizer.rs:187-228 | on a list without zero or tag-2 objects, the walk is the pair-level map for every way the objects can move if and only if each pair but the last keeps step |
| FinalizerSpec.InStepExact | mmtk/src/julia_finalizer.rs:192-227 | the walk stops at the start of every pair if and only if each pair but the last has a tag-1 object or an untagged finalizer |
| FinalizerSpec.OutOfStepExample | mmtk/src/julia_finalizer.rs:192-227 | a list on which the walk loses step and never traces the second object |
| FinalizerSpec.OldOnesAreRetained | mmtk/src/julia_finalizer.rs:37-46 | a pair moved to the marked list is kept by the second sweep of the same pass |
| FinalizerSpec.PassPlaces | mmtk/src/julia_finalizer.rs:26-46 | exactly what both shared lists hold after the sweeps, in order; a nursery pass leaves the old marked list as a prefix |
| FinalizerSpec.PassConserves | mmtk/src/julia_finalizer.rs:26-46 | over a whole pass no non-zero pair is lost or duplicated |
| FinalizerSpec.PairPlaced | mmtk/src/julia_finalizer.rs:26-46 | for every non-zero pair, counting repetitions: all its swept copies end in to_finalize if it is tagged 2 or dead at entry, all in the marked list if not, and neither list changes otherwise |
| FinalizerSpec.MarkFromPairs | mmtk/src/julia_finalizer.rs:187-228 | marking from an even start marks whole pairs and leaves the words before it unchanged |
| FinalizerSpec.PassMarksPairs | mmtk/src/julia_finalizer.rs:17-57 | when the swept lists keep step, both shared lists are marked pair by pair, and in a nursery collection the old marked pairs stay as they were |
| FinalizerSpec.SweptKeepStep | mmtk/src/julia_finalizer.rs:26-56 | they do when the non-empty pairs they are made of keep step, old marked pairs of a nursery collection aside |
| MarkFacts.PassFollows | mmtk/src/julia_finalizer.rs:17-57 | in the lists a pass leaves every entry has been followed, but the old marked ones of a nursery collection, which are as before; and what is traced |
| MarkFacts.FlagSetExactly | mmtk/src/julia_finalizer.rs:168-174 | a sweep sets the flag exactly when a non-zero pair of the list is tagged 2 or dead |
| MarkFacts.PassSetsFlagExactly | mmtk/src/julia_finalizer.rs:17-57 | a pass sets it exactly when such a pair is in a list it sweeps |
| Finalizer.ArrayList.Get | mmtk/src/julia_finalizer.rs:93-96 | the word at the index |
| Finalizer.ArrayList.Set | mmtk/src/julia_finalizer.rs:97-100 | replaces one word and keeps the rest |
| Finalizer.ArrayList.Grow | mmtk/src/julia_finalizer.rs:105-114 | n more words are in use and the old contents are a prefix |
| Finalizer.ArrayList.Push | mmtk/src/julia_finalizer.rs:101-104 | appends one word |
| Finalizer.SweepPair | mmtk/src/julia_finalizer.rs:143-180 | one turn of the loop: the pair joins the list its fate names, the words not yet read stay, the flag is set if it is freed |
| Finalizer.ProgressStep | mmtk/src/julia_finalizer.rs:142-181 | each turn keeps the loop's invariant on all three lists and the flag |
| Finalizer.SweepFinalizerList | mmtk/src/julia_finalizer.rs:128-184 | in place, the list keeps the retained pairs, the other two gain the freed and the old ones after what they held, all in the original order; the flag is set exactly when a pair was freed |
| Finalizer.MarkOne | mmtk/src/julia_finalizer.rs:193-227 | one turn of the mark loop: which word is traced and replaced, and where the walk goes on |
| Finalizer.WalkAt | mmtk/src/julia_finalizer.rs:192-227 | the rest of the walk after one turn |
| Finalizer.MarkFinlist | mmtk/src/julia_finalizer.rs:187-228 | the in-place loop computes the walk from `start`, for every list and every start, also one past the end |
| FinalizerPass.SweepLocals | mmtk/src/julia_finalizer.rs:26-35 | for any number of mutators every thread-local list ends empty and its pairs go where their fates say |
| FinalizerPass.SweepAllLists | mmtk/src/julia_finalizer.rs:23-46 | both sweeps together do what the pass specification says, in a nursery and in a full collection |
| FinalizerPass.MarkLocals | mmtk/src/julia_finalizer.rs:48-52 | after the sweeps the thread-local lists give marking nothing to do |
| FinalizerPass.ScanFinalizersInRust | mmtk/src/julia_finalizer.rs:17-57 | the whole pass: local lists empty, shared lists swept by liveness at entry and then marked, the trace in order, the flag set if and only if it was or a pair was freed; every entry left refers to its object at the new address (`PassLeft`) |
| Overallocation.IncrementFits | mmtk/src/gc_trigger.rs:363-364 | the increment never overflows, for every 64-bit old value |
| Overallocation.IncrementMonotone | mmtk/src/gc_trigger.rs:363-364 | the increment grows with the old value |
| Overallocation.PowerPartBounds | mmtk/src/gc_trigger.rs:357-364 | the power part p satisfies p^8 <= (2 * old)^7 and old^7 < (2 * p)^8 |
| TriggerFacts.IncrementBySize | mmtk/src/gc_trigger.rs:363-364 | for an old size of n bits the increment is 4 * 2^(7n/8) plus an eighth of the size |
| Overallocation.NeverAboveIncrement | mmtk/src/gc_trigger.rs:365-370 | the result never exceeds the increment |
| TriggerFacts.OverallocationIs | mmtk/src/gc_trigger.rs:365-370 | the result is the increment, or the lesser of it and max_val / 20 when the sum passes max_val; never below both |
| Overallocation.CapExact | mmtk/src/gc_trigger.rs:365-370 | val + result <= max(max_val, val + max_val / 20) if and only if the guard's sum does not wrap around to max_val or below, or the increment is small |
| Overallocation.CapCanFail | mmtk/src/gc_trigger.rs:366 | sizes in whole pages whose sum wraps around and escapes the cap |
| TriggerRuns.CapFailsInRun | mmtk/src/gc_trigger.rs:205-209 | a run from `new` that calls it with such sizes |
| Trigger.Smooth | mmtk/src/gc_trigger.rs:343-352 | a smoothed value lies in [1, 2^37] for any inputs and factor |
| TriggerFacts.SmoothIsMean | mmtk/src/gc_trigger.rs:343-352 | it is the weighted mean of old and new value rounded down, 19 to 1 or 1 to 1 |
| Trigger.JuliaGCTrigger.constructor | mmtk/src/gc_trigger.rs:51-70 | the initial state |
| Trigger.JuliaGCTrigger.OnGcStart | mmtk/src/gc_trigger.rs:74-103 | the state after a GC start |
| Trigger.JuliaGCTrigger.OnGcEnd | mmtk/src/gc_trigger.rs:118-289 | the state after a GC end, and when a full collection is asked for |
| Trigger.JuliaGCTrigger.UpdateTarget | mmtk/src/gc_trigger.rs:138-261 | what an automatic GC end recomputes |
| Trigger.JuliaGCTrigger.UpdateThrashing | mmtk/src/gc_trigger.rs:169-195 | the counter and the flag after the estimator |
| Trigger.JuliaGCTrigger.LimitTarget | mmtk/src/gc_trigger.rs:197-260 | the target the guard rails leave |
| Trigger.JuliaGCTrigger.OnPendingAllocation | mmtk/src/gc_trigger.rs:291-293 | adds pages and changes nothing else |
| Trigger.JuliaGCTrigger.HeapFull | mmtk/src/gc_trigger.rs:310-324 | whether reserved and pending bytes reach the target |
| TriggerFacts.InitialState | mmtk/src/gc_trigger.rs:51-70 | every field before the first collection |
| TriggerFacts.StartRecords | mmtk/src/gc_trigger.rs:74-103 | what a collection's start records, and what it leaves |
| TriggerFacts.EndRecords | mmtk/src/gc_trigger.rs:118-134 | what every collection's end records, and what it leaves |
| TriggerFacts.UserEndKeepsTarget | mmtk/src/gc_trigger.rs:136-138 | a collection the user asked for leaves the target and all estimates alone |
| TriggerFacts.SizesInBytes | mmtk/src/gc_trigger.rs:126-130 | heap size and user limit in bytes: pages of 4096, and 80% of the memory |
| TriggerFacts.FullExactly | mmtk/src/gc_trigger.rs:310-324 | the heap is full exactly when reserved and pending bytes reach the target |
| TriggerFacts.FullForcedExactly | mmtk/src/gc_trigger.rs:263-288 | when the next collection is to be a full one |
| TriggerFacts.EstimatorStep | mmtk/src/gc_trigger.rs:169-195 | counter and flag after each automatic collection, case by case |
| TriggerFacts.GoalIsAllowance | mmtk/src/gc_trigger.rs:178-182 | the goal a satisfies a^2 * gc_mem * alloc_time == 20000^2 * heap_size * alloc_mem * gc_time, for any square root |
| TriggerFacts.TargetFromRates | mmtk/src/gc_trigger.rs:178-260 | without thrashing, that allowance, between the rails and below the user limit, is what the new target leaves above the heap |
| TriggerFacts.TargetFollowsRates | mmtk/src/gc_trigger.rs:178-260 | the target grows with the allocation rate and falls with the collection rate |
| TriggerFacts.LimitedOrder | mmtk/src/gc_trigger.rs:197-260 | a larger goal never gives a smaller target |
| TriggerFacts.GoalTaken | mmtk/src/gc_trigger.rs:197-260 | a goal between the rails and below the user limit is added to the heap size |
| TriggerFacts.GoalRaised | mmtk/src/gc_trigger.rs:243-249 | a goal below the lower rail, or cut to below it, gives the lower rail |
| TriggerFacts.GoalLowered | mmtk/src/gc_trigger.rs:235-241 | a goal above the upper rail gives the upper rail, if the user limit leaves room |
| TriggerFacts.GoalCut | mmtk/src/gc_trigger.rs:214-224 | a goal past the user limit gives the limit, if that lies between the rails |
| TriggerFacts.GoalThrashing | mmtk/src/gc_trigger.rs:226-232 | when thrashing, a goal below the geometric mean of the rails gives the mean |
| TriggerRuns.LimitedBounds | mmtk/src/gc_trigger.rs:197-260 | for any goal and any square root, with m = max(heap_size / 20, default / 8), the target is at least heap_size + m (or the largest usize) and at least the default, and at most max(default, heap_size + max(m, overallocation)); not thrashing, also at most max(default, user limit, heap_size + m) |
| TriggerRuns.TargetBounds | mmtk/src/gc_trigger.rs:118-261 | those bounds for the target after every automatic GC end from any state whatever |
| TriggerRuns.HysteresisEstablished | mmtk/src/gc_trigger.rs:169-195 | from any state whose flag is 0 or 1, after an automatic GC end the flag is 1 with a counter of at least 3 or 0 with one of at most 2 |
| TriggerRuns.CalmStaysCalm | mmtk/src/gc_trigger.rs:170-176 | a counter of at most 2 never rises and the flag stays 0 |
| TriggerRuns.ReachableRun | mmtk/src/gc_trigger.rs:51-293 | in every run from `new` the smoothed values stay in [1, 2^37], counter and thrashing flag stay 0, and the target is at least the default interval |
| TriggerRuns.TargetBoundsEveryRun | mmtk/src/gc_trigger.rs:118-261 | in every run each automatic GC end sets a target of at least heap_size + m (or the largest usize) and at most max(default, user limit, heap_size + m), because no run thrashes |
| TriggerRuns.NotFullUntilMoreReserved | mmtk/src/gc_trigger.rs:310-324 | after an automatic GC end, whatever happens up to the next one, the heap is not full while the reserved and pending bytes are below heap_size + m (or the largest usize) |
| TriggerRuns.PendingNeverCleared | mmtk/src/gc_trigger.rs:291-293 | after every run the pending pages are the sum, modulo 2^64, of all pages ever reported |
| TriggerRuns.SmoothStep | mmtk/src/gc_trigger.rs:343-352 | an in-range estimate moves from old towards new without passing it and stands still only within k - 1 below |
| TriggerRuns.SmoothSettles | mmtk/src/gc_trigger.rs:343-352 | fed one value, the estimate never overshoots and settles after at most as many collections as the distance |
| TriggerRuns.SettlingBands | mmtk/src/gc_trigger.rs:140-162 | smoothing one value settles within [v - 19, v] for factor 0.95 and within [v - 1, v] for factor 0.5 |
| TriggerRuns.RememberedStep | mmtk/src/gc_trigger.rs:131-167 | an automatic collection replaces each of the four remembered values by its smoothing with what was measured, and no other event changes it |
| TriggerRuns.SettlesInRun | mmtk/src/gc_trigger.rs:143-167 | in every run from `new`, once enough automatic collections have measured the same v, each of the four remembered values is in its band, and stays there while v lasts |
| Handshake.FlagSteps | mmtk/src/collection.rs:48-84 | which steps raise and lower each flag, and in which order the collector goes |
| Handshake.MutatorSteps | mmtk/src/collection.rs:167-182 | the order of a mutator's steps: announce, lock, raise, wait and wake while BLOCK_FOR_GC is set, leave |
| Handshake.ConsistentStep | mmtk/src/collection.rs:43-182 | every atomic step keeps the invariant for any number of blocking threads, a clearing of BLOCK_FOR_GC if the mutators are quiet |
| Handshake.QuietSafety | mmtk/src/collection.rs:43-182 | for any number of threads and blockers, a run that clears BLOCK_FOR_GC only while quiet is safe: the collector works only with both flags set and some mutator in its wait loop |
| Handshake.ClearIsSafeExactly | mmtk/src/collection.rs:83-87 | in every state of every run, clearing BLOCK_FOR_GC is safe for all that the threads already in the call may then do if and only if none of them is between announcing itself and raising the flag |
| Handshake.StepInvariant | mmtk/src/collection.rs:43-96 | with one blocker, every atomic step of either side keeps the invariant |
| Handshake.RunInvariant | mmtk/src/collection.rs:43-96 | so does every run, and all its clearings are quiet |
| Handshake.StopTheWorldSafety | mmtk/src/collection.rs:43-84 | the one-blocker case: for any number of threads and every such interleaving, while the collector works both flags are set, the blocked mutator is in its wait loop and every other one is outside |
| Handshake.SameMutatorThroughout | mmtk/src/collection.rs:166-182 | it is the same mutator from the moment the flag is seen until BLOCK_FOR_GC is cleared |
| Handshake.TwoBlockersBreakSafety | mmtk/src/collection.rs:166-182 | a run with two blockers from the initial state in which the collector works with no mutator blocked; `ClearIsSafeExactly` says when that can happen |
| Handshake.LostStopIsForever | mmtk/src/collection.rs:48-51 | a lost stop request keeps both sides waiting through every later step |
| Handshake.LostStopOnlyBetweenStores | mmtk/src/collection.rs:83-84 | a stop is lost if and only if the second store is taken after a mutator came back in and raised the flag |
| Handshake.StopsCanBeLost | mmtk/src/collection.rs:83-84 | a run of the model that loses one |

## Left out

- The C runtime and mmtk-core: every `jl_*` call, the exception-stack scan at the end of
  `mmtk_scan_gcstack`, `jl_gc_update_inlined_array` after a copy, allocation, work packets and plans.
- Initialisation, entry points and build code (`api.rs`, `build_info.rs`, `build.rs`), logging, the
  `MUTATORS` map, `reference_glue.rs` and `RootLabel`: only lookups and enumerations.
- Debug-only assertions, including the one in `gc_ptr_clear_tag`.
- Big-endian branches, `raw_get` and `raw_set`, and the bitfield packers other than the two cited.
- Rounding of f64 in the trigger: `real` arithmetic, with the truncating, saturating cast to usize kept.
  The square root is an arbitrary function.
- Weak memory ordering and progress of the handshake. `notify_all` and spurious wakeups are one step, so
  no wakeup is promised. The bookkeeping of GC times and of user-triggered collections is not modelled.
- Atomic accesses to slots and to the trigger's fields: one thread at a time uses them here.
- Wrap-around of pointer arithmetic and of object sizes: addresses and sizes are unbounded integers in
  `GcStack`, `ObjectScan`, `ObjectModel`, `ObjectCopy` and `InteriorPointers`, apart from the window of a copied stack and the layout
  product, which wrap as in the source.
- ObjectModel.ScanInsideObject: leaves out objects with slots elsewhere. For tasks `TaskInside` and for memory
  that is not inlined `MemoryInside` say where the slots are; for modules with many usings nothing does.
- ObjectCopy.ScanOfCopy: leaves out generic memories and modules, which point into themselves;
  `ScanOfCopiedMemory` and `ScanOfCopiedModule` treat them after the correction of that pointer, which is
  itself left to the runtime and to the offset slot.
- The place of a borrowed memory's owner is the runtime's choice; `OwnerInside` takes it to be the word after
  the memory's own two.
- Slots of array elements and of type layouts come from the layout descriptors the runtime promises
  (`ElementLayout`, `FieldLayout`); how Julia builds them is not modelled.
- The item buffer of a finalizer list is a sequence field, so two lists that share one buffer, and the
  allocation inside `arraylist_grow`, are not captured.
- The slot visitor is the list of slots it is given, in order; a visitor that changes memory while an
  object is being scanned is not modelled.
- `is_gc_required`, `get_current_heap_size_in_pages`, `get_max_heap_size_in_pages` and
  `can_heap_size_grow`: single expressions over `is_heap_full` or one field.
- `mmtk_jl_svecref`, `mmtk_jl_tparam0` and `RootsWorkBuffer`: unused by the algorithms above.
- Backtrace.ScanBacktrace: says nothing of a buffer whose last entry is cut short, because the source reads past
  its end there.
- GcStack.WalkFrames: says nothing of a cyclic frame chain, on which the source does not stop.
- Slots.TagSurvives: needs the object's new address to be even, as every object address is.
