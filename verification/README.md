# Verified models of a teaching computer and its libraries

This project models, in Dafny, four parts of a repository with a simulated 16-bit computer, its
operating system and assembler, and a C++ support library, and proves what they are for.

- **Matrices** (`Vectors`, `Determinant`, `Elimination`, `Inversion`, `Dominance`, `LuDecomposition`,
  `DenseMatrix`): elimination with partial pivoting, determinants, inversion and P A = L U over exact
  numbers, for every dimension. `DenseMatrix.Dense` is the object with the nested in-place loops; the
  other modules say what the loops compute and prove the algebra.
- **Kernel and memory management** (`Bits`, `Isa`, `Paging`, `AddressSpaces`, `Kernel`,
  `KernelInvariant`, `Power`, `Isolation`, `Survival`, `DemandPaging`, `FlatMemory`, `FreshMemory`,
  `PrintedText`, `PrintedBytes`, `Scheduling`, `Quantum`, `Handover`, `FrameAccounting`, `HeapBlocks`,
  `SystemCalls`, `KernelObject`): frames, page tables, demand paging, malloc and free, context switch,
  round robin with quantum and sleep, load, kill and exit, driven by processor cycles and interrupts.
  `Kernel` is the state machine, `KernelObject.Machine` the kernel that changes its fields in place,
  and `RunEvents` ties every run of the second to a run of the first.
- **Processor and assembler** (`InstructionSet`, `MachineCycle`, `Lexer`, `TokenText`, `Parser`,
  `FrontEnd`, `AssembledText`, `Encoding`, `Linker`, `SymbolicMachine`, `ProgramInKernel`, `RunOutput`,
  `EndToEnd`, `IdleProgram`): the instruction set in numbers; characters to tokens to syntax tree to
  words, and the words on the processor against a program that jumps by label.
- **Timer and pool allocator** (`EventTimer`, `MemoryPool`, `SizeIndex`): the heap of events and the
  loop that fires them, the free list threaded through the chunks, and the size-class index.

The main results, each for all inputs or all runs:

- determinant by elimination and by cofactors agree, exactly when (`Elimination.AgreementExactly`), and
  on which matrices, read off their entries (`Dominance.DominantAgrees`);
  `invert` gives a two-sided inverse (`Inversion.InverseCorrect`); LU is a decomposition
  (`LuDecomposition.DecomposeCorrect`), and exists exactly when (`DecomposeExactly`);
- every event keeps the kernel's invariant (`KernelInvariant.RunKeeps`); every process runs as if alone
  (`Isolation.RunIsolated`) and dies only by its own doing, by a kill, or for want of a frame
  (`Survival.StepSurvivors`), and none can switch the machine off (`StepStaysOn`); what it prints is its
  own (`RunOutput.OwnTextIsPrivate`); page faults are invisible, to an instruction
  (`DemandPaging.FaultTransparency`) and to whole programs (`FlatMemory.RunFlat`); the scheduler is fair
  (`Scheduling.Fairness`, `FairnessWithDeaths`), its slices are exact (`Quantum.FiveTicks`), and only it
  hands the processor over (`Handover.StepHandsOver`); sleeps are exact (`SleepFromCall`);
- every instruction word and every system call, in plain numbers (`InstructionSet.RegisterInstruction`,
  `ImmediateInstruction`, module `SystemCalls`);
- a program's text is read back in any layout (`FrontEnd.ProgramRead`), its words simulate it
  (`SymbolicMachine.RunSimulated`), also inside the kernel (`EndToEnd.TextRunsAsWritten`), it prints what
  it says it prints (`TextPrintsAsWritten`), and a string printed by its label at any time of any run
  reaches the terminal as it was written (`TextToTerminal`);
- due events fire once and in order, and all their requests are met
  (`EventTimer.Timer.TriggerEvents`); no chunk is handed out twice (`MemoryPool.PoolCore.Allocate`); the index is linear search (`SizeIndex.BuildIndex`).

Some properties one might expect are false of the code. Each has a lemma with an input and one with
the exact condition: the tolerance of the elimination (`ToleranceDisagreement`, `AgreementExactly`),
immediates of 512 and more (`ImmediateLost`, `ImmediateExactly`, `InstructionExactly`), malloc beyond
4096 pages (`MallocWrapsAround`, `MallocPlacement`), clean memory for a new process
(`FreshMemory.Witness`, `ResidueExactly`), free calls on memory that was never touched
(`FlatMemory.FreeTells`, `StepFlat`), strings beyond ASCII
(`PrintedBytes.AccentPrinted`, `AsciizShownExactly`).

Reading the kernel theorems: `Inv` is the invariant between events, `BootInv` shows that it holds after
boot. `Enabled` says what is asked of the outside: the machine is on, the idle program does not call
exit, no division by zero is executed, fewer than 65536 processes are created. `Possible` is a run of
enabled events; booted with the repository's own idle program, the demand on the idle process is always
met (`IdleProgram.IdleNeverExits`). A private machine (`Isolation.Private`) has registers, a program
counter, pages and heap blocks, and nothing else.

`dafny verify dfyconfig.toml` checks everything.

## Model

| member | source | states |
|---|---|---|
| `Determinant.DetLinear` | my-lib/include/my-lib/math-matrix.h:744-761 | the cofactor determinant is linear in every row |
| `Determinant.DetSwapFirst` | my-lib/include/my-lib/math-matrix.h:744-761 | exchanging the first two rows negates the cofactor determinant (expansion along two rows, pairs of columns cancel) |
| `Determinant.DetSwap` | my-lib/include/my-lib/math-matrix.h:476-480 | swapping any two different rows negates the determinant |
| `Determinant.DetEqualRows` | my-lib/include/my-lib/math-matrix.h:744-761 | two equal rows make the determinant zero |
| `Determinant.DetRowAdd` | my-lib/include/my-lib/math-matrix.h:524-530 | adding a multiple of one row to another keeps the determinant |
| `Determinant.DetTriangular` | my-lib/include/my-lib/math-matrix.h:781-788 | the determinant of an upper triangular matrix is the product of its diagonal |
| `Elimination.GaussShape` | my-lib/include/my-lib/math-matrix.h:494-534 | a finished elimination leaves an echelon form whose pivots all exceed the tolerance, with at most one swap a column |
| `Elimination.GaussDet` | my-lib/include/my-lib/math-matrix.h:518-533 | elimination keeps (sign of the swaps) times determinant, for every dimension |
| `Elimination.DeadColumn` | my-lib/include/my-lib/math-matrix.h:514-516 | when a column has nothing left from the pivot row on, where elimination gives up, the determinant is zero |
| `Elimination.GaussAgreesWithLaplace` | my-lib/include/my-lib/math-matrix.h:765-790 | for every n and every matrix on which elimination does not report singular, both determinant algorithms give the same, non-zero number |
| `Elimination.AgreementExactly` | my-lib/include/my-lib/math-matrix.h:765-790 | the two algorithms agree if and only if elimination finishes or the cofactor determinant is zero |
| `Elimination.ExactGaussAlwaysAgrees` | my-lib/include/my-lib/math-matrix.h:496-516 | with an exact zero test in place of the tolerance, elimination reports singular exactly when the determinant is zero, and the two algorithms always agree |
| `Elimination.ToleranceDisagreement` | my-lib/include/my-lib/math-matrix.h:498-516 | the tolerance 1e-10 does make them disagree: a concrete 2 by 2 matrix with determinant 10^-11 is called singular |
| `Dominance.ClearKeepsDominant` | my-lib/include/my-lib/math-matrix.h:518-533 | clearing a column below its pivot leaves the rest of a column-dominant matrix column-dominant, by the same margin |
| `Dominance.DominantAgrees` | my-lib/include/my-lib/math-matrix.h:494-534 | a condition on the entries alone: if in every column the diagonal exceeds the sum of the other magnitudes by more than the tolerance, elimination swaps no rows and does not report singular, both determinants agree and are not zero, and inversion and LU decomposition succeed, for every n |
| `Dominance.DiagonalInverse` | my-lib/include/my-lib/math-matrix.h:681-715 | a diagonal matrix has an inverse exactly when all its diagonal entries exceed 10^-10 in magnitude |
| `Elimination.DetTwoByTwo` | my-lib/include/my-lib/math-matrix.h:732-733 | the closed form of dimension two is the cofactor determinant |
| `Elimination.DetThreeByThree` | my-lib/include/my-lib/math-matrix.h:734-737 | the closed form of dimension three is the cofactor determinant |
| `Inversion.UpdateKeepsSpan` | my-lib/include/my-lib/math-matrix.h:666-672 | a row operation can be undone: every old row is a combination of the new ones |
| `Inversion.GaussLinked` | my-lib/include/my-lib/math-matrix.h:701-702 | elimination of [A I] keeps every row of the form [r A, r] and loses no combination of rows |
| `Inversion.JordanIdentity` | my-lib/include/my-lib/math-matrix.h:560-578 | back substitution turns the left block into the identity, the columns already done staying done |
| `Inversion.JordanLinked` | my-lib/include/my-lib/math-matrix.h:560-578 | back substitution keeps the link between left and right block |
| `Inversion.LinkedIdentity` | my-lib/include/my-lib/math-matrix.h:708-712 | once the left block is the identity, the right block times A and A times the right block are both the identity |
| `Inversion.InverseCorrect` | my-lib/include/my-lib/math-matrix.h:681-715 | whenever `invert` returns true the result is a two-sided inverse, for every n |
| `Inversion.InvertibleExactly` | my-lib/include/my-lib/math-matrix.h:704-706 | `invert` succeeds exactly when elimination of A itself does, and never on a matrix with determinant zero |
| `LuDecomposition.ClearRebuilt` | my-lib/include/my-lib/math-matrix.h:662-670 | clearing a row moves its share from U into the stored multiplier: the rows rebuilt from L and U stay those of the reordered A |
| `LuDecomposition.LuFromInvariant` | my-lib/include/my-lib/math-matrix.h:631-671 | every round keeps: order is a permutation, swaps have its parity, L and U rebuild the reordered A, shapes |
| `LuDecomposition.DecomposeCorrect` | my-lib/include/my-lib/math-matrix.h:612-674 | whenever it does not throw: the row order is a permutation, L is unit lower and U upper triangular, pivot matrix times A is L times U, the swap count has the permutation's parity, and the determinant is sign times the diagonal of U |
| `LuDecomposition.DecomposeExactly` | my-lib/include/my-lib/math-matrix.h:631-671 | there is a decomposition exactly when elimination finishes all columns but the last, whose pivot is not tested; U and the swaps are those of that elimination, and all pivots but the last exceed the tolerance |
| `LuDecomposition.DecomposeWhenRegular` | my-lib/include/my-lib/math-matrix.h:612-674 | there is one whenever elimination does not report singular, and with an exact zero test for every matrix whose determinant is not zero |
| `DenseMatrix.Dense.SwapRowsInPlace` | my-lib/include/my-lib/math-matrix.h:476-480 | the cells become the matrix with rows a and b exchanged |
| `DenseMatrix.Dense.FindPivot` | my-lib/include/my-lib/math-matrix.h:502-512 | the first row of the rest whose entry has the largest magnitude |
| `DenseMatrix.Dense.ClearRow` | my-lib/include/my-lib/math-matrix.h:526-529 | subtracting from column k on clears the entry and equals the whole-row operation, the columns before being zero |
| `DenseMatrix.Dense.GaussElimination` | my-lib/include/my-lib/math-matrix.h:494-534 | the in-place loops compute the specified elimination and return its swap count, or report singular |
| `DenseMatrix.Dense.ClearColumn` | my-lib/include/my-lib/math-matrix.h:524-530 | one column cleared below the diagonal |
| `DenseMatrix.Dense.BackSubstitute` | my-lib/include/my-lib/math-matrix.h:560-578 | one round of back substitution in place |
| `DenseMatrix.Dense.GaussJordanElimination` | my-lib/include/my-lib/math-matrix.h:551-581 | the in-place loops compute the specified Gauss-Jordan elimination |
| `DenseMatrix.Dense.AugmentedCopy` | my-lib/include/my-lib/math-matrix.h:685-699 | the new matrix holds [A I] and A is unchanged |
| `DenseMatrix.Dense.Invert` | my-lib/include/my-lib/math-matrix.h:681-715 | the object holds the two-sided inverse when it returns true and is unchanged when it returns false |
| `DenseMatrix.Dense.ToSubmatrix` | my-lib/include/my-lib/math-matrix.h:457-472 | a new matrix without the given row and column |
| `DenseMatrix.Dense.DeterminantLaplace` | my-lib/include/my-lib/math-matrix.h:744-761 | the recursive summing loop computes the cofactor determinant |
| `DenseMatrix.Dense.DeterminantGauss` | my-lib/include/my-lib/math-matrix.h:765-790 | the determinant by elimination of a copy; this object is unchanged |
| `DenseMatrix.Dense.DeterminantLu` | my-lib/include/my-lib/math-matrix.h:997-1006 | parity of the swaps times the diagonal of U |
| `DenseMatrix.Dense.Determinant` | my-lib/include/my-lib/math-matrix.h:726-740 | closed forms up to dimension three, elimination beyond |
| `DenseMatrix.Dense.SetPivotMatrix` | my-lib/include/my-lib/math-matrix.h:587-595 | the cells hold the permutation's selection matrix |
| `DenseMatrix.Dense.SwapRound` | my-lib/include/my-lib/math-matrix.h:649-660 | one exchange in U, in the finished part of L and in the row order together |
| `DenseMatrix.Dense.StoreAndClear` | my-lib/include/my-lib/math-matrix.h:662-670 | the multipliers of a column stored in L while U is cleared |
| `DenseMatrix.Dense.ToLuDecomposition` | my-lib/include/my-lib/math-matrix.h:612-674 | the loops compute the specified decomposition, and report failure exactly where the original throws |
| `DenseMatrix.Dense.Times` | my-lib/include/my-lib/math-matrix.h:943-961 | the triple loop computes the matrix product |
| `Bits.GetSetSame` | my-lib/include/my-lib/bit.h:69-77 | reading back a written field gives the low bits of the value |
| `Bits.GetSetOther` | my-lib/include/my-lib/bit.h:69-77 | writing one field leaves every other field alone |
| `Bits.SetInRange` | my-lib/include/my-lib/bit.h:69-77 | a write inside the first w bits stays inside them |
| `Paging.PackedFrame` | so-sim-cpp-exercicio/arch/cpu.h:46-55 | the frame number survives packing into the 32-bit entry |
| `Paging.PackedRights` | so-sim-cpp-exercicio/arch/cpu.h:46-55 | the four right bits survive packing |
| `Paging.PackedUsage` | so-sim-cpp-exercicio/arch/cpu.h:46-55 | the accessed and dirty bits survive packing |
| `Paging.MarkedExactly` | so-sim-cpp-exercicio/arch/cpu.cpp:273-276 | a granted access marks its page accessed, and dirty if it writes, and changes nothing else of the table |
| `Paging.TranslateIsSetBits` | so-sim-cpp-exercicio/arch/cpu.cpp:278-283 | replacing the page bits of an address by the frame is frame times page size plus offset; it lies in the physical memory if and only if the frame is in range |
| `Paging.FirstFree` | so-sim-cpp-exercicio/os/mem_virtual.cpp:25-36 | the least free frame from i on, or none |
| `Paging.PlaceKeeps` | so-sim-cpp-exercicio/os/mem_virtual.cpp:73-86 | mapping a free frame to an absent page keeps frame ownership |
| `Paging.DropKeeps` | so-sim-cpp-exercicio/os/mem_virtual.cpp:108-115 | freeing the frame of a page and clearing its entry keeps frame ownership |
| `AddressSpaces.StoreView` | so-sim-cpp-exercicio/arch/cpu.h:148-152 | a store changes one word of one address space and nothing of any other |
| `AddressSpaces.ReadView` | so-sim-cpp-exercicio/arch/cpu.cpp:236-283 | translation grants exactly the pages of the address space, inside physical memory, and reads their words |
| `AddressSpaces.MarkView` | so-sim-cpp-exercicio/arch/cpu.cpp:273-276 | the accessed and dirty bits do not matter to any address space |
| `AddressSpaces.DemandPageView` | so-sim-cpp-exercicio/os/mem_virtual.cpp:126-164 | a served fault adds one zero page and touches no other address space |
| `AddressSpaces.FreePagesView` | so-sim-cpp-exercicio/os/mem_virtual.cpp:88-124 | freeing a range takes exactly those pages, from one process, and their frames |
| `AddressSpaces.LoadPagesView` | so-sim-cpp-exercicio/os/process_manager.cpp:99-128 | the loader shows the image in some number of first pages (how many is `LoadPagesExactly`), and keeps ownership and all other address spaces |
| `AddressSpaces.RemoveView` | so-sim-cpp-exercicio/os/process_manager.cpp:130-171 | removing a process frees all its frames and leaves the others alone |
| `Kernel.Search` | so-sim-cpp-exercicio/os/process_manager.cpp:275-290 | the first eligible process after the cursor, none skipped |
| `Kernel.ErasedElements` | so-sim-cpp-exercicio/os/process_manager.cpp:154-168 | erasing keeps all other processes, and the cursor's successor is alive |
| `Kernel.FindPid` | so-sim-cpp-exercicio/os/process_manager.cpp:173-181 | the process with this number, or proof that there is none |
| `Scheduling.DispatchExactly` | so-sim-cpp-exercicio/os/process_manager.cpp:262-298 | a dispatch runs the first eligible process behind the cursor, none skipped, or idle when nobody is eligible, with its record in the processor and the cursor on it |
| `KernelInvariant.DestroyExactly` | so-sim-cpp-exercicio/os/process_manager.cpp:148-171 | the record, the place in the table and the page table are gone, the frames the process owned and no others become free, all else stays, and a cursor on it moves to its successor |
| `KernelInvariant.ScheduleKeeps` | so-sim-cpp-exercicio/os/process_manager.cpp:262-298 | after scheduling exactly one process is Running, it is the current one, and its page table is in use |
| `KernelInvariant.DestroyCurrentKeeps` | so-sim-cpp-exercicio/os/os.cpp:332-336 | destroying the current process and scheduling restores the invariant |
| `KernelInvariant.LoadKeeps` | so-sim-cpp-exercicio/os/process_manager.cpp:183-224 | loading and running a program keeps the invariant |
| `KernelInvariant.KillKeeps` | so-sim-cpp-exercicio/os/os.cpp:194-229 | kill keeps the invariant |
| `KernelInvariant.TimerKeeps` | so-sim-cpp-exercicio/os/os.cpp:85-103 | the timer handler keeps the invariant: quantum below 5, Blocked if and only if ticks remain |
| `KernelInvariant.SystemCallKeeps` | so-sim-cpp-exercicio/os/os.cpp:339-372 | every system call keeps the invariant |
| `KernelInvariant.CycleKeeps` | so-sim-cpp-exercicio/arch/cpu.cpp:43-80 | every processor cycle, with its faults and exceptions, keeps the invariant |
| `KernelInvariant.StepKeeps` | so-sim-cpp-exercicio/os/os.cpp:73-108 | every event keeps: one Running process and it is current, the processor uses its page table, live cursor, distinct non-zero numbers, quantum below 5, Blocked exactly with sleep ticks, frame ownership |
| `KernelInvariant.RunKeeps` | so-sim-cpp-exercicio/os/os.cpp:73-108 | so does every run of events |
| `KernelInvariant.BootInv` | so-sim-cpp-exercicio/os/os.cpp:60-68 | the state after boot satisfies the invariant |
| `KernelInvariant.BootExactly` | so-sim-cpp-exercicio/os/os.cpp:60-68 | after boot there is one process, idle, with number 0, running from address 1 with cleared registers, and no number has been given out |
| `KernelInvariant.LoadExactly` | so-sim-cpp-exercicio/os/process_manager.cpp:183-224 | a load puts the new process at the end of the table with the next number, runs it and makes the one before Ready; an empty file does nothing |
| `Isolation.ScheduleSame` | so-sim-cpp-exercicio/os/process_manager.cpp:21-52 | a context switch changes no process's registers, program counter, memory or blocks |
| `Isolation.LoadSame` | so-sim-cpp-exercicio/os/process_manager.cpp:183-224 | loading leaves all other processes alone and starts the new one at address 1 with cleared registers and the image in its first pages |
| `Isolation.DestroyCurrentSame` | so-sim-cpp-exercicio/os/process_manager.cpp:148-171 | destroying a process changes nothing the others can see |
| `Isolation.KillSame` | so-sim-cpp-exercicio/os/os.cpp:194-229 | nor does kill |
| `Isolation.SystemCallIsolated` | so-sim-cpp-exercicio/os/os.cpp:339-388 | a system call does to its caller what the private machine says and nothing to the others |
| `Isolation.CycleIsolated` | so-sim-cpp-exercicio/arch/cpu.cpp:43-80 | a processor cycle advances the private machine of the current process and no other |
| `Isolation.StepIsolated` | so-sim-cpp-exercicio/arch/cpu.cpp:43-80 | every event: a process that survives it is unchanged, unless the event is its own cycle, which is one step of its private machine; also when the event switches the machine off |
| `Isolation.RunIsolated` | so-sim-cpp-exercicio/os/mem_virtual.cpp:88-164 | memory virtualisation over every run: a live process is exactly where a private machine, alone, would be after that process's own cycles |
| `Survival.WalkIsPrivate` | so-sim-cpp-exercicio/os/os.cpp:390-434 | the kernel's string walk sees exactly the private pages of the process |
| `Survival.StepSurvivors` | so-sim-cpp-exercicio/os/os.cpp:302-337 | exactly who dies in a step: the process a kill command names, or the running one if its own private machine says so (illegal instruction, access outside its pages, no free frame, exit, bad string); never idle |
| `Survival.StepStaysOn` | so-sim-cpp-exercicio/os/os.cpp:312-331 | the machine goes off exactly on the quit command, or when the idle process executes an illegal instruction or faults on a page that cannot be served; no user process can switch it off |
| `Survival.StepOutput` | so-sim-cpp-exercicio/os/os.cpp:390-457 | what a step prints is a function of the running process's private machine alone, in every state and for every event |
| `Survival.DecimalReads` | so-sim-cpp-exercicio/os/os.cpp:452-457 | the printed digits of a word read back as the word, without leading zeros |
| `PrintedText.PrintCall` | so-sim-cpp-exercicio/os/os.cpp:390-434 | in any state of the kernel, a cycle in which the running process makes the print call on a text in its pages prints exactly that text, and the process and the machine go on |
| `PrintedText.WordKept` | so-sim-cpp-exercicio/arch/cpu.h:148-152 | a word of a process survives every cycle of it that neither writes that word nor frees its page |
| `PrintedText.TextPrinted` | so-sim-cpp-exercicio/os/os.cpp:390-434 | a text in the pages of a process is printed as it is by a print call at the end of any run in which the process has spared it |
| `PrintedBytes.PrintWords` | so-sim-cpp-exercicio/os/os.cpp:390-434 | the print call on any words: each shows its low byte and, if it is not zero, its high byte, as signed characters, up to the first word with a zero low byte |
| `PrintedBytes.BytesPrinted` | so-sim-cpp-exercicio/os/os.cpp:407-426 | any bytes but zero, packed two a word, come out one character each |
| `PrintedBytes.PrintBroken` | so-sim-cpp-exercicio/os/os.cpp:397-404 | a string that runs into a missing page: what comes before is shown, and a user process is destroyed |
| `PrintedBytes.AsciizShownExactly` | arq-sim-assembler/syntax.cpp:308-317 | a string of the assembler is shown as its words are if and only if it is plain ASCII |
| `PrintedBytes.AccentPrinted` | arq-sim-assembler/syntax.cpp:308-317 | a concrete character beyond ASCII comes out as two |
| `RunOutput.RunShows` | so-sim-cpp-exercicio/os/os.cpp:390-457 | over any run the terminal receives the texts of the cycles in order, and nothing else |
| `RunOutput.OwnTextIsPrivate` | so-sim-cpp-exercicio/os/os.cpp:390-457 | over any run what one process contributes to the terminal is what its private machine prints in its own cycles, also when it dies on the way |
| `DemandPaging.FaultTransparency` | so-sim-cpp-exercicio/arch/cpu.cpp:56-77 | after at most two served faults the instruction completes with the outcome it has on any machine where the missing pages were zero from the start; until then registers, pc and mapped words are unchanged |
| `DemandPaging.FaultServed` | so-sim-cpp-exercicio/os/os.cpp:302-337 | a fault of any process, idle included, is served exactly when the page is within the process's pages and a frame is free; otherwise the process is gone, or, for idle, the machine is off |
| `FlatMemory.StepFlat` | so-sim-cpp-exercicio/arch/cpu.cpp:43-80 | one completed instruction does the same on a memory with all pages present from the start, if and only if it is not a free call of an address that starts no block in an absent page |
| `FlatMemory.FreeTells` | so-sim-cpp-exercicio/os/os.cpp:480-514 | a concrete machine: freeing an address in a page never touched answers 0, and 1 when the page is present |
| `FlatMemory.RunFlat` | so-sim-cpp-exercicio/arch/cpu.cpp:43-80 | whole programs: over any run without such a call, a machine that faults its pages in computes what one with all pages of zeros from the start computes in the completed instructions alone |
| `FlatMemory.FlatFromKernel` | so-sim-cpp-exercicio/os/mem_virtual.cpp:126-164 | the same of every live process in any run of the kernel |
| `FreshMemory.ReadableWords` | so-sim-cpp-exercicio/os/mem_virtual.cpp:126-164 | without writing, a process reads only the words of its first pages, and zeros |
| `FreshMemory.ResidueExactly` | so-sim-cpp-exercicio/os/process_manager.cpp:119-126 | what a new process finds in its memory is the same for every previous content of the memory if and only if the image fills its last page; so for other images the words behind it depend on what the frame held before |
| `Scheduling.DispatchCloser` | so-sim-cpp-exercicio/os/process_manager.cpp:262-298 | a dispatch runs p or another eligible process strictly closer to p in the round; idle is never chosen over an eligible process |
| `Scheduling.DispatchedWithinTable` | so-sim-cpp-exercicio/os/process_manager.cpp:262-298 | an eligible process is running after at most as many dispatches as there are processes in the table |
| `Scheduling.StepFair` | so-sim-cpp-exercicio/os/os.cpp:85-103 | no event moves a waiting process back, and every timer interrupt brings it closer |
| `Scheduling.Fairness` | so-sim-cpp-exercicio/os/os.cpp:85-103 | with N processes and no creation or destruction, a Ready process runs within 5 N timer interrupts |
| `Scheduling.FairnessWithDeaths` | so-sim-cpp-exercicio/os/process_manager.cpp:148-171 | with destroys allowed, it runs within 5 N + 5 (N - 1) + ... + 5 timer interrupts: each death under the cursor costs one round at most |
| `Quantum.TimerTick` | so-sim-cpp-exercicio/os/os.cpp:85-103 | a timer interrupt, exactly: a user process in its first four ticks keeps the processor, registers and program counter; at the fifth it is made Ready, its slice starts anew and the next process is dispatched; idle is rescheduled at every interrupt |
| `Quantum.FiveTicks` | so-sim-cpp-exercicio/os/os.cpp:85-103 | through fewer than 5 - q timer interrupts a process with quantum q keeps running, and exactly the (5 - q)-th makes the dispatch |
| `Quantum.StepQuantum` | so-sim-cpp-exercicio/os/os.cpp:91-96 | no event but a timer interrupt at which it is running changes the quantum of a process |
| `Quantum.RunQuantum` | so-sim-cpp-exercicio/os/os.cpp:91-96 | over any run the quantum of a user process is the number of timer interrupts at which it was running, modulo 5 |
| `Handover.StepHandsOver` | so-sim-cpp-exercicio/os/process_manager.cpp:262-298 | the processor changes hands only by a load or by the round robin: after death, sleep or preemption the first eligible process behind the cursor runs; a sleep call always makes a dispatch, also with zero ticks |
| `Scheduling.StepSleeper` | so-sim-cpp-exercicio/os/process_manager.cpp:247-260 | only timer interrupts count down a sleeper |
| `Scheduling.SleepCall` | so-sim-cpp-exercicio/os/os.cpp:516-529 | the sleep call of a user process leaves it blocked with the ticks of register 1, or not blocked when they are zero |
| `Scheduling.SleepExactly` | so-sim-cpp-exercicio/os/os.cpp:85-103 | a blocked process with n ticks left becomes ready with exactly the n-th timer interrupt |
| `Scheduling.SleepFromCall` | so-sim-cpp-exercicio/os/os.cpp:516-529 | from the processor cycle of the call on: a sleep of n > 0 keeps the process blocked, with the rest of its ticks, until exactly the n-th timer interrupt |
| `FrameAccounting.FrameCount` | so-sim-cpp-exercicio/os/mem_virtual.cpp:10-44 | in every state with frame ownership the used frames are the two reserved ones plus one for each present entry |
| `ProgramInKernel.FreeFrameExactly` | so-sim-cpp-exercicio/os/mem_virtual.cpp:25-36 | there is a free frame exactly while fewer than 2046 pages of all processes together are present |
| `FrameAccounting.SomePageAbsent` | so-sim-cpp-exercicio/os/mem_virtual.cpp:10-36 | no process can have all 4096 pages present: 2046 frames cannot be mapped injectively |
| `FrameAccounting.WalkEnds` | so-sim-cpp-exercicio/os/os.cpp:390-434 | the endless print loop ends within 65536 words in every such state, although the address wraps |
| `FrameAccounting.PrintsText` | so-sim-cpp-exercicio/os/os.cpp:390-434 | printing the address of a zero-terminated text of characters 1 to 127 outputs exactly that text |
| `HeapBlocks.MallocPlacement` | so-sim-cpp-exercicio/os/os.cpp:459-478 | a block lies above all pages in use and inside the address space if and only if the pages stay within 4096 |
| `HeapBlocks.MallocWrapsAround` | so-sim-cpp-exercicio/os/os.cpp:469-472 | beyond that the address wraps: a full process is given a block at address 0 |
| `HeapBlocks.FreeExactly` | so-sim-cpp-exercicio/os/os.cpp:480-514 | freeing a block's start address removes that block and its pages, and no page of another block or of the image |
| `HeapBlocks.BlocksStayApart` | so-sim-cpp-exercicio/os/os.cpp:459-514 | in every run of the kernel, while a process stays within its 4096 pages, its blocks are disjoint from each other and from its image |
| `HeapBlocks.BlocksFromLoad` | so-sim-cpp-exercicio/os/process_manager.cpp:183-224 | so from the moment a program is loaded: through any possible run within its 4096 pages its blocks lie above its image and apart |
| `SystemCalls.ExitCall` | so-sim-cpp-exercicio/os/os.cpp:374-388 | call 0: the process is gone, and nobody else |
| `SystemCalls.NewLineCall` | so-sim-cpp-exercicio/os/os.cpp:446-450 | call 2 prints a line feed and does nothing else |
| `SystemCalls.NumberCall` | so-sim-cpp-exercicio/os/os.cpp:452-457 | call 3 prints the decimal digits of register 1, without leading zeros |
| `SystemCalls.MallocCall` | so-sim-cpp-exercicio/os/os.cpp:459-478 | call 4: nothing for no words; else as many pages of 16 words as are needed, behind all pages in use, 1 in register 1 and the address in register 2 |
| `SystemCalls.FreeBlockCall` | so-sim-cpp-exercicio/os/os.cpp:480-514 | call 5 at the start of a block: the first such block and its pages are gone, 1 in register 1 |
| `SystemCalls.FreePageCall` | so-sim-cpp-exercicio/os/os.cpp:480-514 | call 5 anywhere else: the one page is given back, and register 1 says whether it was there |
| `SystemCalls.ClockCall` | so-sim-cpp-exercicio/os/os.cpp:531-535 | call 7: the answer of the clock in register 1 |
| `SystemCalls.UnknownCall` | so-sim-cpp-exercicio/os/os.cpp:339-372 | calls from 8 on do nothing |
| `KernelObject.Machine.BootSystem` | so-sim-cpp-exercicio/os/os.cpp:60-68 | boot leaves the specified state, with the invariant |
| `KernelObject.Machine.InitVmem` | so-sim-cpp-exercicio/os/mem_virtual.cpp:14-23 | exactly the two reserved frames are used |
| `KernelObject.Machine.AllocatePhysicalFrame` | so-sim-cpp-exercicio/os/mem_virtual.cpp:25-36 | the least free frame is taken, or -1 and no change |
| `KernelObject.Machine.FreePhysicalFrame` | so-sim-cpp-exercicio/os/mem_virtual.cpp:38-44 | the frame is free; a number out of range changes nothing |
| `KernelObject.Machine.VaddrToPaddr` | so-sim-cpp-exercicio/os/mem_virtual.cpp:46-71 | the kernel's own translation agrees with the processor's on every present page |
| `KernelObject.Machine.FreeVirtualPage` | so-sim-cpp-exercicio/os/mem_virtual.cpp:88-124 | the loop frees exactly the present pages of the range and says whether there was one |
| `KernelObject.Machine.HandleDemandPaging` | so-sim-cpp-exercicio/os/mem_virtual.cpp:126-164 | succeeds exactly when the page is allowed, absent and a frame is free; the page is then zero |
| `KernelObject.Machine.ProcessMemoryConfig` | so-sim-cpp-exercicio/os/process_manager.cpp:99-128 | the image placed page by page until frames run out |
| `KernelObject.Machine.FreeProcessMemory` | so-sim-cpp-exercicio/os/process_manager.cpp:130-146 | all present pages given back |
| `KernelObject.Machine.DestroyProcess` | so-sim-cpp-exercicio/os/process_manager.cpp:148-171 | memory, table entry and record gone, the cursor moved to the successor if it was there |
| `KernelObject.Machine.GetProcessByPid` | so-sim-cpp-exercicio/os/process_manager.cpp:173-181 | the first process with that number |
| `KernelObject.Machine.UpdateSleepingProcesses` | so-sim-cpp-exercicio/os/process_manager.cpp:247-260 | every record ticked once |
| `KernelObject.Machine.SaveCurrentContext` | so-sim-cpp-exercicio/os/process_manager.cpp:21-35 | registers and pc in the record, Running becomes Ready |
| `KernelObject.Machine.RestoreProcessContext` | so-sim-cpp-exercicio/os/process_manager.cpp:37-52 | the record in the processor, with its page table |
| `KernelObject.Machine.NextEligible` | so-sim-cpp-exercicio/os/process_manager.cpp:270-290 | the cursor walk finds what the search function says |
| `KernelObject.Machine.ScheduleNext` | so-sim-cpp-exercicio/os/process_manager.cpp:262-298 | the whole of `schedule` |
| `KernelObject.Machine.CmdKillProcess` | so-sim-cpp-exercicio/os/os.cpp:194-229 | the kill command, including the current process |
| `KernelObject.Machine.CreateProcessStruct` | so-sim-cpp-exercicio/os/process_manager.cpp:73-97 | a fresh record at the end of the table; idle keeps number 0 |
| `KernelObject.Machine.LoadUserProgram` | so-sim-cpp-exercicio/os/process_manager.cpp:183-216 | an empty file does nothing; else record and memory set up |
| `KernelObject.Machine.CmdLoad` | so-sim-cpp-exercicio/os/os.cpp:284-290 | load and run |
| `KernelObject.Machine.TimerHandler` | so-sim-cpp-exercicio/os/os.cpp:85-103 | sleepers ticked, quantum counted, rescheduling |
| `KernelObject.Machine.SysMalloc` | so-sim-cpp-exercicio/os/os.cpp:459-478 | the bump allocation |
| `KernelObject.Machine.SysFree` | so-sim-cpp-exercicio/os/os.cpp:480-514 | block search, page release and result register |
| `KernelObject.Machine.SysSleep` | so-sim-cpp-exercicio/os/os.cpp:516-529 | blocked with its ticks and rescheduled; zero ticks only yield |
| `KernelObject.Machine.SysPrintString` | so-sim-cpp-exercicio/os/os.cpp:390-444 | the print loop, which ends, and the kill on a bad address |
| `KernelObject.Machine.DecimalDigits` | so-sim-cpp-exercicio/os/os.cpp:452-457 | the decimal digits of a word |
| `KernelObject.Machine.SystemCallHandler` | so-sim-cpp-exercicio/os/os.cpp:339-372 | the dispatch on register 0 |
| `KernelObject.Machine.VmemToPhys` | so-sim-cpp-exercicio/arch/cpu.cpp:236-283 | translation with rights and usage bits |
| `KernelObject.Machine.ExceptionHandler` | so-sim-cpp-exercicio/os/os.cpp:302-337 | fault served, panic on idle, or the process destroyed |
| `KernelObject.Machine.ExecuteInstruction` | so-sim-cpp-exercicio/arch/cpu.cpp:102-214 | one decoded instruction on registers and memory |
| `KernelObject.Machine.RunCycle` | so-sim-cpp-exercicio/arch/cpu.cpp:43-80 | one cycle keeps the invariant and is the specified one, restart after a fault included |
| `KernelObject.Machine.HandleEvent` | so-sim-cpp-exercicio/os/os.cpp:73-108 | interrupts, commands and cycles: each is one step of the state machine and keeps the invariant |
| `KernelObject.Machine.RunEvents` | so-sim-cpp-exercicio/os/os.cpp:73-108 | any run of the object is a run of the state machine, so every run theorem holds of the in-place kernel |
| `Encoding.GetOr` | arq-sim-assembler/linker.cpp:98-136 | a field of a bitwise or is the or of the fields |
| `Encoding.EncodeRtypeInstruction` | arq-sim-assembler/linker.cpp:98-118 | for fields in range the shifted ors add up: no field disturbs another |
| `Encoding.EncodeItypeInstruction` | arq-sim-assembler/linker.cpp:120-136 | type bit, immediate, register and opcode or-ed together |
| `Encoding.DecodeEncodeR` | so-sim-cpp-exercicio/arch/cpu.cpp:116-119 | every R-type word decodes to its own fields |
| `Encoding.DecodeEncodeI` | so-sim-cpp-exercicio/arch/cpu.cpp:185-187 | what the processor reads in an I-type word for every 16-bit immediate: nine bits of it, opcode and register spoilt by its higher bits |
| `Encoding.ImmediateExactly` | arq-sim-assembler/linker.cpp:127-133 | the processor reads back what the assembler wrote if and only if the immediate is below 512 |
| `Encoding.ImmediateLost` | arq-sim-assembler/syntax.cpp:150-156 | concrete losses: `mov r0, 1024` passes the range check and runs as `mov r1, 0`; `mov r0, 512` runs as `mov r0, 0` |
| `InstructionSet.RegisterInstruction` | so-sim-cpp-exercicio/arch/cpu.cpp:102-175 | every register word in numbers: opcodes 0 to 2 add, subtract and multiply modulo 65536, 3 divides rounding down, 4 and 5 compare, 15 loads, 16 stores, 63 calls the system, all others are illegal |
| `InstructionSet.ImmediateInstruction` | so-sim-cpp-exercicio/arch/cpu.cpp:177-214 | every immediate word in numbers: 0 jumps, 1 jumps if the register is 1, 3 moves, 2 is illegal; nine bits of immediate are read |
| `InstructionSet.EveryWord` | so-sim-cpp-exercicio/arch/cpu.cpp:116-119 | each of the 65536 words is one of these |
| `MachineCycle.LoadCycle` | so-sim-cpp-exercicio/arch/cpu.cpp:154-157 | a load puts the word of the process's page into the register, or asks for the page |
| `MachineCycle.StoreCycle` | so-sim-cpp-exercicio/arch/cpu.cpp:159-162 | a store changes that one word of the process's pages and no other, or asks for the page |
| `MachineCycle.OtherCycle` | so-sim-cpp-exercicio/arch/cpu.cpp:43-80 | all other words change registers and program counter as the instruction set says, call the system, or are the process's end |
| `Linker.AddressIsPosition` | arq-sim-assembler/linker.cpp:23-56 | each node's address, for a label that of the following word, is its exact position in the output, and the words there are the node's |
| `Linker.CalculateVaddrs` | arq-sim-assembler/linker.cpp:23-56 | the first pass writes every node's address and size, modulo 65536 |
| `Linker.SearchLabelNode` | arq-sim-assembler/linker.cpp:58-71 | the first node that defines the label |
| `Linker.FillPlaceHolders` | arq-sim-assembler/linker.cpp:73-96 | every label operand becomes that label's address; the first undefined label is reported |
| `Linker.GenerateBinary` | arq-sim-assembler/linker.cpp:143-207 | the emitted words, or the linker's error, are those of the specification |
| `SymbolicMachine.StepSimulated` | so-sim-cpp-exercicio/arch/cpu.cpp:102-214 | one fetch-decode-execute cycle on the emitted words does what one step of the symbolic program does |
| `SymbolicMachine.InstructionExactly` | so-sim-cpp-exercicio/arch/cpu.cpp:177-214 | an immediate instruction is decoded as written if and only if its immediate or label address is below 512 |
| `SymbolicMachine.IntactKept` | so-sim-cpp-exercicio/arch/cpu.h:148-152 | the code stays as emitted through every step except a store to an instruction word or the release of a page of code |
| `SymbolicMachine.RunSimulated` | arq-sim-assembler/linker.cpp:143-207 | the emitted words follow the symbolic program through a whole run: same registers and memory, pc at the node's address |
| `SymbolicMachine.ProgramFromBoot` | arq-sim-assembler/linker.cpp:160-171 | from pc 1 the first cycle jumps to `_start`, and the run is that of the program |
| `ProgramInKernel.LoadPagesExactly` | so-sim-cpp-exercicio/os/process_manager.cpp:108-127 | the loader loads as many pages of the image as there are free frames, or all if those suffice |
| `ProgramInKernel.LoadedWhole` | so-sim-cpp-exercicio/os/process_manager.cpp:99-128 | a program loaded while there is room stands at address 1 with the pages of its whole image and no other pages; the words behind the image in the last page are left open |
| `ProgramInKernel.ProgramRunsAsWritten` | so-sim-cpp-exercicio/os/os.cpp:73-108 | a linked program, loaded and scheduled among others through any events, does what its syntax tree says |
| `ProgramInKernel.StringInImage` | arq-sim-assembler/syntax.cpp:308-317 | the words of an `.asciiz` node stand at its address in the loaded image |
| `ProgramInKernel.StringFidelity` | so-sim-cpp-exercicio/os/os.cpp:390-432 | a process with the assembled image in its memory, run among others through any events: whenever it makes the print call with the address of a label in front of a string it has neither overwritten nor freed, exactly that string is appended to the terminal, and it lives on |
| `ProgramInKernel.StringFromLoad` | so-sim-cpp-exercicio/os/process_manager.cpp:183-224 | the same for every run that starts with the load command |
| `Lexer.Scanner.GetToken` | arq-sim-assembler/lex.cpp:83-303 | the automaton returns the next token, and ends (remaining input, then state rank); it stops at any read or write outside its buffers |
| `TokenText.GapSkipped` | arq-sim-assembler/lex.cpp:101-141 | any blanks and comments are skipped |
| `TokenText.StringScanned` | arq-sim-assembler/lex.cpp:250-297 | an escaped string is read back as the string |
| `TokenText.IntegerScanned` | arq-sim-assembler/lex.cpp:200-235 | the decimal form of an integer, with its sign, is read back as the integer |
| `TokenText.TokenScanned` | arq-sim-assembler/lex.cpp:83-303 | every token is read back from its spelling if the next character does not belong to it |
| `TokenText.LayoutRead` | arq-sim-assembler/lex.cpp:83-303 | any sequence of tokens, with any gaps that keep neighbours apart, is read back exactly |
| `Parser.GetInstrByLabel` | arq-sim-assembler/syntax.cpp:96-106 | the first instruction of the table with that name, or none |
| `Parser.SyntaxParseReg` | arq-sim-assembler/syntax.cpp:134-148 | the register of that name, or an error |
| `Parser.SyntaxParseInstrR` | arq-sim-assembler/syntax.cpp:158-205 | the operand forms of register instructions |
| `Parser.SyntaxParseInstrI` | arq-sim-assembler/syntax.cpp:207-253 | the operand forms of jumps and mov, with the range check as it is |
| `Parser.SyntaxParseDirective` | arq-sim-assembler/syntax.cpp:274-321 | the three directives and their errors |
| `Parser.SyntaxParseNode` | arq-sim-assembler/syntax.cpp:331-351 | instruction, directive or label by the first token |
| `Parser.SyntaxAnalyze` | arq-sim-assembler/syntax.cpp:323-353 | a list of new, separate nodes for the whole text, or the first error |
| `FrontEnd.NamesDiffer` | arq-sim-assembler/syntax.cpp:51-82 | no two instructions share a mnemonic |
| `FrontEnd.MnemonicFound` | arq-sim-assembler/syntax.cpp:96-106 | the table gives every instruction back by its name |
| `AssembledText.MnemonicR` | arq-sim-assembler/syntax.cpp:51-82 | the spellings of the register instructions, letter by letter |
| `AssembledText.MnemonicI` | arq-sim-assembler/syntax.cpp:51-82 | the spellings of jump, jump_cond and mov |
| `AssembledText.RegisterOperand` | arq-sim-assembler/syntax.cpp:134-148 | exactly r0 to r7 are registers, anything else is an error |
| `AssembledText.RegisterForms` | arq-sim-assembler/syntax.cpp:158-205 | the operands of arithmetic and comparison in the order in which they are written, token by token: `rd, ra, rb` |
| `AssembledText.MemoryForms` | arq-sim-assembler/syntax.cpp:158-205 | `rd, [ra]` for a load and `[ra], rb` for a store |
| `AssembledText.ImmediateForms` | arq-sim-assembler/syntax.cpp:207-253 | `label` for a jump, `r, label` for a conditional jump and for moving an address |
| `AssembledText.NodeForms` | arq-sim-assembler/syntax.cpp:331-351 | any other name is a label if a colon follows and an error if not |
| `AssembledText.ImmediateLimit` | arq-sim-assembler/syntax.cpp:150-156 | mov accepts a number exactly up to 1024 and stores it modulo 65536 |
| `AssembledText.DataIsZeros` | arq-sim-assembler/syntax.cpp:274-321 | `.data n` is n words of zero |
| `AssembledText.DirectiveErrors` | arq-sim-assembler/syntax.cpp:274-321 | a negative size and any other directive are refused |
| `AssembledText.LinksExactly` | arq-sim-assembler/linker.cpp:58-96 | a program links exactly when it defines `_start` and every label it uses |
| `AssembledText.Escapes` | arq-sim-assembler/lex.cpp:268-297 | what may stand behind a backslash in a string, and what it stands for |
| `AssembledText.WordRead` | arq-sim-assembler/lex.cpp:237-249 | a word of up to 127 letters, digits and underscores is read as a name; a longer one overruns the buffer |
| `FrontEnd.InstrRParsed` | arq-sim-assembler/syntax.cpp:158-205 | the written operands of a register instruction parse to it |
| `FrontEnd.InstrIParsed` | arq-sim-assembler/syntax.cpp:207-253 | so do those of a jump or mov, for every 16-bit number |
| `FrontEnd.WordsParsed` | arq-sim-assembler/syntax.cpp:293-307 | a `.word` list parses to its values modulo 65536 |
| `FrontEnd.ProgramParsed` | arq-sim-assembler/syntax.cpp:323-353 | the tokens of a program parse to its syntax tree |
| `FrontEnd.ProgramLexable` | arq-sim-assembler/lex.cpp:83-303 | all tokens of a writable program can be lexed |
| `FrontEnd.ProgramRead` | arq-sim-assembler/syntax.cpp:323-353 | the round trip: any program whose integers have 32 bits, in any layout, is read back as the same syntax tree |
| `FrontEnd.RunAssembler` | arq-sim-assembler/asm.cpp:16-33 | lexer, parser and linker objects together compute the specified image or error |
| `FrontEnd.AssembledAsWritten` | arq-sim-assembler/asm.cpp:16-33 | the image depends only on the program, not on its layout |
| `AssembledText.IdleAssembled` | arq-sim-assembler/asm-example/idle.asm:1-3 | the text of the file, character by character, assembles to the words 0, 32770, 57344, 32770 |
| `EndToEnd.TextToTerminal` | arq-sim-assembler/syntax.cpp:308-317 | a string behind a label in the text of a program of any layout: once assembled and loaded while there is room, it appears on the terminal character by character whenever, in any run of the kernel, its process prints the label and has spared the string |
| `EndToEnd.TextRunsAsWritten` | arq-sim-assembler/asm.cpp:16-33 | what the text of a program says is what its process does among all others |
| `EndToEnd.TextPrintsAsWritten` | so-sim-cpp-exercicio/os/os.cpp:390-457 | what the text of a program says it prints is, over any run, exactly what its process contributes to the terminal |
| `IdleProgram.IdleLinks` | arq-sim-assembler/asm-example/idle.asm:1-3 | the idle program links, and all its words can be read by the processor |
| `IdleProgram.IdleForever` | arq-sim-assembler/asm-example/idle.asm:1-3 | a process running it never traps, faults, divides or ends, over any number of cycles |
| `IdleProgram.IdleBoots` | so-sim-cpp-exercicio/os/os.cpp:60-68 | booted with it, the system satisfies the invariant and the idle process stands at address 1 with the whole image |
| `IdleProgram.IdleNeverExits` | so-sim-cpp-exercicio/os/os.cpp:374-388 | from that boot, every run that asks nothing of the idle process is a run of the kernel and keeps the invariant: the idle process never calls exit |
| `EventTimer.RootIsLeast` | my-lib/include/my-lib/event-timer.h:194-195 | the root of the heap is a least element |
| `EventTimer.SiftUp` | my-lib/include/my-lib/event-timer.h:309-312 | one step up keeps the heap but for one place |
| `EventTimer.SiftDown` | my-lib/include/my-lib/event-timer.h:317-321 | one step down keeps the heap but for one place |
| `EventTimer.PushHeap` | my-lib/include/my-lib/event-timer.h:309-312 | a heap with the same elements, as section [alg.heap.operations] of ISO/IEC 14882 demands of `push_heap` |
| `EventTimer.PopHeap` | my-lib/include/my-lib/event-timer.h:317-321 | the least element at the end and a heap of the others, as the same section demands of `pop_heap` |
| `EventTimer.Timer.Push` | my-lib/include/my-lib/event-timer.h:309-315 | the event is added, the vector stays a heap by time with each event once |
| `EventTimer.Timer.Pop` | my-lib/include/my-lib/event-timer.h:317-321 | the earliest event is taken out, the rest stays |
| `EventTimer.Timer.ScheduleEvent` | my-lib/include/my-lib/event-timer.h:236-261 | a fresh, enabled event with a new identifier, and a descriptor that leads to it |
| `EventTimer.Timer.UnscheduleEvent` | my-lib/include/my-lib/event-timer.h:263-269 | the event is switched off in place and its descriptor no longer leads to it |
| `EventTimer.Timer.TriggerFirst` | my-lib/include/my-lib/event-timer.h:194-226 | one round: the earliest event out and called if it is on; it is back in the vector exactly if its callback asked for that, at the time asked for, and otherwise gone with its descriptor cleared; one new event for each time the callback asked for |
| `EventTimer.RoundKeeps` | my-lib/include/my-lib/event-timer.h:194-229 | a round keeps what holds half-way through the loop, and fewer events are due |
| `EventTimer.Timer.TriggerEvents` | my-lib/include/my-lib/event-timer.h:181-230 | if callbacks only ask for later times: the loop ends, calls each due event that is on once and in time order, skips only events unscheduled by a callback not later than themselves; afterwards the vector holds exactly the later events, the called events whose callbacks asked to come again, at the times asked for, and one new event for each time asked for, each on unless a later callback unscheduled it; the descriptors of the events gone are cleared |
| `EventTimer.RoundComings` | my-lib/include/my-lib/event-timer.h:222-225 | a round keeps the account of what the callbacks have asked for: every request so far has its event, and no event is there without a request |
| `MemoryPool.AllChunksApart` | my-lib/src/memory-pool.cpp:40-70 | the address ranges of any two chunks of any blocks are disjoint |
| `MemoryPool.AllChunksInside` | my-lib/src/memory-pool.cpp:50-59 | every chunk lies inside its block |
| `MemoryPool.ChunksLinked` | my-lib/src/memory-pool.cpp:56-69 | the threaded chunks followed by the old list are one list without a cycle |
| `MemoryPool.PoolCore.LinkChunks` | my-lib/src/memory-pool.cpp:52-59 | the loop links each chunk to the next |
| `MemoryPool.PoolCore.AllocChunksForBlock` | my-lib/src/memory-pool.cpp:40-70 | the free list becomes the block's chunks followed by the old list |
| `MemoryPool.PoolCore.AllocNewBlock` | my-lib/src/memory-pool.cpp:30-38 | the new block joins the others, the invariant kept |
| `MemoryPool.PoolCore.Allocate` | my-lib/include/my-lib/memory-pool.h:78-93 | a chunk that was not live becomes live; free and live still partition all chunks |
| `MemoryPool.PoolCore.Deallocate` | my-lib/include/my-lib/memory-pool.h:97-108 | a live chunk becomes the head of the free list |
| `MemoryPool.PoolCore.Write` | my-lib/include/my-lib/memory-pool.h:43-48 | user data in live chunks never disturbs the pool |
| `MemoryPool.PoolCore.ChunkCount` | my-lib/include/my-lib/memory-pool.h:40-94 | free plus live chunks are blocks times chunks per block, in every state |
| `MemoryPool.PoolCore.LiveApart` | my-lib/include/my-lib/memory-pool.h:78-93 | two live chunks never overlap |
| `SizeIndex.Sort` | my-lib/src/memory-pool.cpp:115-120 | ascending and a permutation |
| `SizeIndex.Unique` | my-lib/src/memory-pool.cpp:122-124 | strictly ascending with the same elements |
| `SizeIndex.PrepareSizes` | my-lib/src/memory-pool.cpp:107-124 | the pool sizes are the clamped sizes, ascending, each once |
| `SizeIndex.BuildIndex` | my-lib/src/memory-pool.cpp:142-152 | for every size from 1 to the largest, the index holds the pool a linear search for it finds |
| `SizeIndex.ChunksPerBlock` | my-lib/src/memory-pool.cpp:128-132 | a pool gets a chunk a block if and only if its size fits a block |
| `SizeIndex.PoolManager.Load` | my-lib/src/memory-pool.cpp:105-152 | for any sizes: one pool for each clamped size, ascending, with as many chunks a block as fit (none when the size exceeds the block), and an index that agrees with linear search |
| `SizeIndex.PoolManager.PoolFor` | my-lib/include/my-lib/memory-pool.h:171-172 | the pool with the smallest chunks that are large enough |
| `SizeIndex.PoolManager.Allocate` | my-lib/include/my-lib/memory-pool.h:164-177 | a chunk of that pool, no other pool touched; above the largest size the system's block |
| `SizeIndex.PoolManager.Deallocate` | my-lib/include/my-lib/memory-pool.h:179-188 | the chunk goes back to the pool it came from |

## Left out

- Floating point: matrix entries are exact real numbers, so rounding, overflow and not-a-number values are not modelled; the tolerance 1e-10 is kept.
- Matrix storage: cells are a two-dimensional block; the row-major index computation over one array is not modelled, nor are rotation, projection and look-at matrices, `swap_cols` and `transpose`.
- The fixed dimensions of the C++ template are arbitrary numbers here; where the original cannot be instantiated (dimension 0) the model gives the empty product.
- Process records: a value in a map under the record's address, reassigned as a whole; page tables are kept beside it under the same address. Freed addresses are not used again.
- Page-table entries: a record of fields, with `PackedFrame`, `PackedRights` and `PackedUsage` for the 32-bit layout; the `BitSet` class itself, its counting and flipping are not modelled.
- Shift and mask in `Bits` are division and remainder by powers of two; only the assembler's `|=` is a true bitwise or (`Encoding.Or`).
- Multiplication of two 16-bit registers wraps to 16 bits; in the original the product of two promoted values may overflow a signed int, which is undefined.
- Division by zero in the simulated processor is undefined in the original and excluded by `Enabled`.
- An idle program that calls exit, which in the original leaves a dangling idle process, is excluded by `Enabled`. Process numbers are assumed not to wrap (fewer than 65536 creations).
- An address beyond the physical memory ends the simulation in the model; the invariant shows that it never occurs.
- Base-and-limit and disabled address modes, which the kernel does not use after boot.
- Terminals other than the application's, the boot banner, the kernel's messages, `ps` and `help`, the keyboard line editor, the `timer` command, the disk device, files and the wall clock (a word chosen by the environment).
- `load` takes the words of the file; the test that the file's name is the idle program's is the flag `isIdle`.
- Isolation.RunIsolated: speaks of live processes; when a process dies is `Survival.StepSurvivors`. The result of a free call of an address that starts no block tells a process whether that page was resident, so residency is part of the private machine; `FlatMemory` shows that nothing else does.
- Scheduling.FairnessWithDeaths: no program is loaded during the run; loading puts the new process in front at once.
- SymbolicMachine.RunSimulated: covers runs until a store overwrites an instruction word, a page of code is freed, or control leaves the instructions, as no statement about the source text holds after that.
- The register field of a jump is never set by the parser; the linker and processor results hold for any value below 8, the parser writes 0. A larger stray value, which would spoil the opcode, is not modelled.
- Lexer: line and column counts, the white-space and newline token options (off by default) and integers beyond a 32-bit int. Reads and writes beyond the buffers, undefined in the original, end the model's lexer with `Overrun`.
- Parser: the fields of a node that come from the text are one value set when its instruction has been read; only what the linker writes (address, size, immediate) changes in place. Message texts are not modelled, the errors are.
- The lower-casing of the mnemonic table at start-up: the table is given in lower case.
- Linker: words go to a sequence; the file, which keeps its first word when a later error stops the linker, is not part of this model.
- EventTimer: coroutines, the type-erased callback object and the reference counts of descriptors; a callback is what it asks for (`Reaction`), an arbitrary function of how many calls went before and of whose turn it is. A descriptor is the event's number and whether its pointer still leads to the event (`attached`); unscheduling through a descriptor that leads nowhere, a null dereference in the original, is a caller's error.
- EventTimer.PushHeap: the library's heap and sort algorithms are written out here as one way to meet their contract; the order of events with equal times is that of this version.
- MemoryPool: addresses are numbers, alignment is not modelled, the system allocator's promise (a block that overlaps no other of the pool) is the precondition `NewBlock`. Deallocation of a pointer that is not live is a caller's error. A pool whose size does not fit a block can be made, as in the original, but not allocated from: there the original's loop counter wraps and its writes leave the block.
- SizeIndex.PoolManager.Load: the list of sizes is not empty, as the original reads the last pool; the 32-bit truncation of the number of chunks a block is not modelled.
- SizeIndex.PoolManager.Allocate: sizes start at 1, since the original's index has no pool for size 0; that blocks of different pools do not overlap is the system allocator's affair.
- The unfinished general allocator in the pool source, `Any`, generators, interpolation and the small math helpers.
