# Verified models of the Libre-SOC core's clocked machines

This project models the hardest state machines of the Libre-SOC core (nmigen hardware written in Python) and
proves what they are for, over every run. One clock is one step: combinational wires are functions of the held
state and the inputs, `m.d.sync` assignments give the next state. A bit vector of units or registers is a set of
indices, a word is a natural number taken apart bit by bit (`Words`), sizes are parameters, and ghost history
records what the theorems talk about. Each machine exists twice: as a step function with the invariants and
theorems about it, and, where the source updates registers, latches and memories in place, as a class whose
`Clock` method is proved to do exactly that step. The modules, by file:

- `Gates`, `Cells`, `Scoreboard`: the 6600-style scoreboard. Per-unit rows of register-dependency latches, the
  unit-to-unit wait matrix, the instruction-order shadow matrix, the computation units' issue / go-read / go-write
  latches, the pickers, the register-file ports, and how they are wired. `ScoreboardProof` holds the invariant
  across all of them and its preservation, `ScoreboardTheorems` the statements over runs, `ScoreboardHw` the
  clocked objects, `RegSim` the sequential simulator that is the specification. There may be any number of units
  and registers, one instruction offered a cycle, and ALUs that take any time.
- `Speculation`, `SpeculationOrder`, `SpeculationFate`: the branch-speculation record, the branch shadow and the
  instruction-order shadows, with the rest of the scoreboard doing anything its request wires allow, cancellation
  included, and who can still write after it.
- `Mmu`, `MmuTheorems`, `MmuBus`, `MmuBits`: the ten-state radix walker of Power ISA v3.0B Book III sections 5.7.6.2 and
  5.7.10, its cached process-table roots, its output wires, and the recursive walk it computes. The data cache
  answers the address last put on the wires with what memory has there. Tables in memory are fixed, and the data
  cache answers a request with done or err, not both. `MmuBits` says, bit by bit, what the fields and addresses are
  and what the entry loaded translates to.
- `Refill`: the critical-row-first wrapping line refill over a pipelined bus shared by both caches.
- `CacheRam`: the row memories of both caches, with a write enable for every byte.
- `ICache`, `ICacheTheorems`, `ICacheBits`, `ICacheService`, `ICacheHw`: the instruction cache with its TLB, tags,
  valid bits, reload machine and row memories. Memory is fixed, the slave is in order, every victim choice is
  allowed, and `sequential` means four bytes further. `ICacheBits` says, bit by bit and byte by byte, what the fields
  and the output are.
- `DCache`: the bus side of the data cache: reloads, pipelined stores with a three-bit count of outstanding
  acknowledgements, uncached loads. `DCacheRows` adds the row memories, the way to be replaced and the valid bits:
  reloads, line clears (dcbz) and store hits; `DCacheHw` is the clocked object.
- `L1Cache`, `L1Service`: the one- or two-way cache with refill, eviction, flush and bus errors, against a memory that is
  written while no refill runs, each write with its eviction.
- `OrderedSet`, `InstructionQ`, `DownConvert`, `ByteMemory`, `RotateMask`: the insertion-ordered set, the
  multi-push multi-pop instruction queue, the wide-to-narrow bus converter, the byte-lane memory port, and the
  rotate and mask arithmetic of Power ISA v3.0B Book I section 1.3.4. `Options` is a value that may be missing.

Results that go beyond "it works": where a property holds only under a condition, the condition is proved exact.
The branch's own issue is safe if and only if no direction is requested with it (`BranchIssue`: otherwise it waits
for itself for ever). A cancelled unit is clean if and only if it is not reading in that cycle (`CancelledClean`).
Otherwise its next instruction, however much later, can ask to write before it has read (`WritesUnread`).
After any run, a unit in flight and out of the branch shadow will never write, whatever follows, if and only if some
unit ever outlived one cancelled before it, or a unit is behind an instruction for each outcome of the branch still
open (`NeverWritesExactly`): an order shadow is lifted only by a write of the unit that casts it
(`score6600.py:640-648`), which a cancelled unit never makes. Four cycles from reset suffice for the first: the branch,
an instruction for each of its outcomes, the wrong one first, and the outcome (`WrongOneFirst`); and four for the
second, a plain instruction in place of the outcome (`BehindBoth`). While nobody outlives a cancelled unit the order
shadows are the issue order and the oldest unit in flight is never stopped, in every run (`OrderInRuns`,
`OldestNeverStops`).
A line clear clears its line if and only if it finds the data cache idle; one that comes while stores to its tag are
under way is taken for a store of one word (`ClearTaken`, `ClearLost`), because `dcache.py:1541-1543` does not ask
whether what joins is a line clear.
The instruction cache's clearing of a victim is sound if and only if fetch still presents the set of the miss, or the
cache is being invalidated, or the victim is invalid there (`HoldNeeded`): `icache.py:632-635` clears the bit in the
set of the current request, not of the miss; otherwise the next request for the new line hits on the old one
(`StaleHit`). A pipeline that stalls on every miss gets stuck for good with the level-one cache if and only if a burst
ever ends in an error or with a flush in its last cycle, or, with the burst over and the pipeline still stalled, a flush
or an eviction takes away the line it reads (`SticksWhen`, `SticksInRuns`): the state machine leaves the refill exactly
when the pipeline moves (`StuckStays`). Without any of these a held miss is served (`MissServed`). A pipeline that moves
on after an error still reads only what memory holds (`AgreesWithMemory`).
Once an instruction queue has taken an offer it is sound, and counts what it held and was offered less what it gave,
if and only if the offer is no more than its length; a larger offer is always taken, because the room left wraps round.
Pointers and count then agree if and only if the new count is no more than the length, and even so instructions are
lost (`InstructionQ.Clock`, `OverranOk`, `OverranLen`, `TakenAndLost`). A queue whose pointers wrap at a power of two
is safe if and only if that is its length (`SafeExactly`). An invalidation of the instruction cache empties every set
but the one the reload machine rewrites in that cycle, from what it was (`InvalidationMisses`). The misalignment flag
is up if and only if an access leaves its word (`MisalignExactly`). The index into a page table is declared and never
driven (`mmu.py:336`); it is left open here, and left undriven it makes every address of one kind of access end in the
same leaf (`UndrivenIndex`).

## Model

| member | source | states |
|---|---|---|
| Gates.Pick | src/soc/scoreboard/group_picker.py:87-103 | the picker raises at most one line, the lowest that is requested, and none only if nothing is requested |
| DependencyCell.RowBits | src/soc/scoreboard/dependence_cell.py:69-117 | a register's latch is set by an issue that names it, whatever else happens, and otherwise held until the unit reads, writes or is cancelled; pending and select lines show the old bit and the new |
| WaitCell.WaitBits | src/soc/scoreboard/fu_dep_cell.py:26-47 | a unit is waited for from an issue that sees its hazard, never itself, until it reads, writes or is cancelled |
| ShadowCell.ShadowBits | src/soc/scoreboard/shadow_fn.py:48-59 | a shadow is up next exactly if nothing lifts it now and it was up, or, in an issue, is cast now |
| ShadowCell.ShadowOutputs | src/soc/scoreboard/shadow_fn.py:56-61 | a unit is cancelled exactly if a shadow that was up fails, and may write exactly if none was up and none is cast and left now |
| ScoreboardModel.SettlesUniquely | src/soc/experiment/score6600.py:602-648 | the combinational loop from the pickers through the matrices and the shadow back to the pickers has exactly one resting point, the decisions computed from the held latches alone |
| ScoreboardProof.Decisions | src/soc/scoreboard/issue_unit.py:94-162 | issue goes to one idle unit, busy means in flight; at most one unit reads, one that has not read; only the oldest unit writes, after it has read |
| ScoreboardProof.ShadowCancelsNobody | src/soc/experiment/score6600.py:640-648 | an order shadow is only ever lifted, by the write of the unit that casts it; it cancels nobody |
| ScoreboardProof.IssuesExactly | src/soc/scoreboard/issue_unit.py:94-162 | an offered instruction is issued if and only if its group has a unit that is not in flight |
| ScoreboardProof.PendingShowsIssued | src/soc/scoreboard/fu_reg_matrix.py:187-214 | in the issue cycle the global pending vectors already include the registers of the instruction being issued |
| ScoreboardProof.HazardsAtIssue | src/soc/scoreboard/dependence_cell.py:85-115 | a unit that still has to write a source of the instruction being issued raises its hazard line in the issue cycle, and so does one that still has to read its destination |
| ScoreboardProof.HazardSource | src/soc/scoreboard/fu_wr_pending.py:22-29 | a read or write hazard line is only raised by a unit in flight that has still to read, or to write |
| ScoreboardProof.WriteEffect | src/soc/experiment/score6600.py:693-703 | in a commit cycle the shared result bus carries the oldest instruction's result to its destination and to no other register; in any other nothing is written |
| ScoreboardProof.RegsKept | src/soc/experiment/score6600.py:693-703 | the file is then the sequential one, one instruction further on a commit and the same otherwise |
| ScoreboardProof.ReadEffect | src/soc/experiment/compalu.py:110-121 | in its go-read cycle a unit captures, through the shared select lines and a write in the same cycle, the operands the sequential run has at its position |
| ScoreboardProof.RowsKept | src/soc/scoreboard/dependence_cell.py:69-117 | an instruction in flight keeps exactly the dependency latches it still needs |
| ScoreboardProof.WaitsKept | src/soc/scoreboard/fu_dep_cell.py:26-47 | wait bits and order shadows of an instruction in flight keep naming older instructions, and every older writer of a source not yet read is still waited for |
| ScoreboardProof.IssuedWaitsOk | src/soc/scoreboard/fu_fu_matrix.py:69-108 | an instruction just issued waits for every older hazard and is shadowed by every older unfinished unit |
| ScoreboardProof.StepKeeps | src/soc/experiment/score6600.py:602-708 | every clock keeps the invariant across the five modules, whatever is offered and whenever the ALUs answer |
| ScoreboardTheorems.RefinesSequential | src/soc/experiment/score6600.py:352-381 | after every run the register file is what the sequential simulator has after the first k accepted instructions, k the number of writes |
| ScoreboardTheorems.OperandsSequential | src/soc/experiment/compalu.py:103-121 | a unit that has read holds its instruction and the operands of the sequential run at its place in the program |
| ScoreboardTheorems.Operands | src/soc/experiment/compalu.py:103-121 | the same from any state of the invariant |
| ScoreboardTheorems.NoHazardNow | src/soc/scoreboard/fu_fu_matrix.py:69-108 | one cycle's decisions: a unit reads only once, and only if no older unit has yet to write a source of it; the writing unit has read and is the oldest, so writes are in issue order and no older reader is overtaken |
| ScoreboardTheorems.HazardFree | src/soc/scoreboard/shadow_fn.py:41-63 | the same in every reachable state |
| ScoreboardTheorems.PointsBack | src/soc/scoreboard/fu_dep_cell.py:36-45 | a set wait bit or shadow bit (y, x) names an unfinished unit x issued before y |
| ScoreboardTheorems.WaitsPointBack | src/soc/experiment/score6600.py:641-648 | so in every reachable state the wait-for relation is acyclic |
| ScoreboardTheorems.OldestIsFree | src/soc/scoreboard/fu_reg_matrix.py:187-214 | the oldest unfinished unit is blocked by neither matrix nor by its shadow |
| ScoreboardTheorems.WorkDone | src/soc/experiment/score6600.py:609-620 | every read and every write takes exactly one off the work outstanding |
| ScoreboardTheorems.Progress | src/soc/scoreboard/fu_picker_vec.py:16-26 | without issue the work never grows, and falls if the oldest unit has not read or its ALU is done |
| ScoreboardTheorems.Drains | src/soc/experiment/score6600.py:613-648 | deadlock freedom: once nothing more is offered, as many cycles in which the oldest unit has yet to read or its ALU is done as there are reads and writes left commit every instruction and leave the simulator's final registers, with any other cycles in between and whatever the other ALUs say |
| ScoreboardTheorems.DrainsInTime | src/soc/experiment/score6600.py:613-648 | with ALUs that never keep the oldest unit waiting for d cycles on end, d cycles for every read and write left do so |
| ScoreboardTheorems.PromptAnswers | src/soc/experiment/alu_hier.py:251-264 | d is one for ALUs that are done as soon as they have their operands, though idle ALUs never say so |
| ScoreboardTheorems.AcceptedInTime | src/soc/scoreboard/issue_unit.py:94-162 | no instruction waits for ever: held at the input it is issued at the latest after as many cycles in which the oldest unit has yet to read or its ALU is done as there were reads and writes left, if its group has a unit at all |
| ScoreboardHardware.GlobalPending | src/soc/scoreboard/global_pending.py:37-51 | the nested loop computes the register-wise OR of the units' vectors |
| ScoreboardHardware.ReduceHazards | src/soc/scoreboard/fu_wr_pending.py:22-29 | the loop over the units yields exactly the units with a hazard against the pending vectors |
| ScoreboardHardware.FURegDepMatrix.Clock | src/soc/scoreboard/fu_reg_matrix.py:78-214 | every row of latches is updated in place, from its own inputs, and no other |
| ScoreboardHardware.FUFUDepMatrix.Clock | src/soc/scoreboard/fu_fu_matrix.py:33-110 | likewise the wait rows |
| ScoreboardHardware.ShadowMatrix.Clock | src/soc/scoreboard/shadow.py:55-83 | likewise the shadow rows |
| ScoreboardHardware.Scoreboard.Clock | src/soc/experiment/score6600.py:602-708 | the clocked scoreboard makes the decisions and the step the theorems are about |
| RegisterSim.RunUntouched | src/soc/experiment/sim.py:37-66 | a register no instruction of a stretch writes keeps its value over it |
| RegisterSim.ComputeGives | src/soc/experiment/sim.py:37-66 | sum, product and difference are given modulo the width, a shift is the quotient by its power of two, a comparison is one exactly if it holds, for every width |
| RegisterSim.ExecGives | src/soc/experiment/sim.py:37-70 | so in a run of the simulator every instruction leaves in its destination what its operation is to give |
| RegisterSim.AddSteps | src/soc/experiment/sim.py:45-46 | adding nothing leaves the operand, adding one more gives one more, round the end of the width |
| RegisterSim.SubUndoesAdd | src/soc/experiment/sim.py:50-51 | subtraction undoes addition |
| RegisterSim.MulSteps | src/soc/experiment/sim.py:47-49 | a product with nothing is nothing, with one more it is one operand more |
| RegisterSim.ShfHalves | src/soc/experiment/sim.py:52-53 | a shift by nothing leaves the operand, by one more it halves it again |
| RegisterSim.Compares | src/soc/experiment/sim.py:54-61 | exactly one of greater, less and equal is one, greater is less the other way round, not-equal is the complement of equal, and each is one exactly if it holds |
| RegisterSim.RegSim.Do | src/soc/experiment/sim.py:37-70 | one instruction: masked operands; the value returned is in the relation `Gives` of its operation to them, and goes to the destination and nowhere else; an unknown operation changes nothing |
| RegisterSim.RegSim.Play | src/soc/experiment/sim.py:37-70 | a program run on the object is the sequential specification's run |
| Speculation.NoWriteInShadow | src/soc/scoreboard/shadow_fn.py:48-61 | a shadowed unit asks for no write, in the resolving cycle included |
| Speculation.DiesExactly | src/soc/scoreboard/shadow_fn.py:56-61 | a unit is cancelled if and only if the branch resolves in this cycle, the unit is shadowed, and it expected the other direction |
| Speculation.OrderCancelsNobody | src/soc/experiment/score6600.py:595-648 | with speculation too an order shadow cancels nobody, so only the branch does |
| Speculation.LatchNext | src/soc/scoreboard/shadow_fn.py:41-63 | the shadow latch is up next cycle exactly if the branch does not resolve now and the unit was shadowed or is issued in the shadow; the recorded direction stays |
| Speculation.StepKeeps | src/soc/scoreboard/shadow.py:128-151 | recorded directions and shadow latches agree after every clock, and only busy units other than the branch are shadowed |
| Speculation.RecordsAgree | src/soc/experiment/score6600.py:655-691 | the same over every run from reset |
| Speculation.Resolution | src/soc/experiment/score6600.py:679-691 | in the resolving cycle a shadowed unit dies exactly if its expectation was wrong, all shadows are lifted, and it is busy afterwards exactly if it did not die |
| Speculation.ShadowLasts | src/soc/scoreboard/shadow.py:135-149 | until the branch resolves, however long, a shadowed unit keeps its shadow and direction and neither writes nor dies |
| Speculation.ResolvedOnce | src/soc/experiment/score6600.py:655-691 | from issue under the shadow to resolution, any number of cycles later: neither a write nor a cancellation before it; cancelled and idle, or busy and out of every branch shadow, after it |
| SpeculationOrder.WritesInOrder | src/soc/experiment/score6600.py:636-648 | while the order shadows are the issue order, a unit writes only when nothing in flight is older |
| SpeculationOrder.StaleExactly | src/soc/experiment/score6600.py:626-648 | a cycle keeps the order shadows equal to the issue order if and only if no unit outlives one that is cancelled before it in that cycle |
| SpeculationFate.DoomedForever | src/soc/experiment/score6600.py:640-648 | over any legal continuation, units out of the branch shadow that wait for each other, for an idle unit or for one issued again behind them never write, still wait and are not cancelled |
| SpeculationOrder.DoomExactly | src/soc/experiment/score6600.py:626-648 | a cycle leaves units waiting so if and only if some unit outlives one cancelled before it |
| SpeculationOrder.OrderInRuns | src/soc/experiment/score6600.py:636-648 | in every run in which nobody outlives a unit cancelled before it the order shadows are the issue order |
| SpeculationOrder.NobodyDoomedInRuns | src/soc/experiment/score6600.py:636-648 | and in no such run is there a set of units waiting for ever |
| SpeculationFate.NeverWritesExactly | src/soc/experiment/score6600.py:626-691 | after any run from reset, a unit in flight and out of the branch shadow writes in no continuation if and only if a unit ever outlived one cancelled before it, or some such unit was issued behind two shadowed units that expect different outcomes |
| SpeculationFate.TornExactly | src/soc/experiment/score6600.py:626-691 | while the order shadows are right, a unit out of the branch shadow writes in no continuation if and only if it was issued behind two shadowed units that expect different outcomes |
| SpeculationFate.FrontMayWrite | src/soc/experiment/score6600.py:613-648 | a continuation in which the last of the oldest units in flight writes, if the shadowed ones among them expect the same outcome: the others read and write first, and the branch goes that way |
| SpeculationFate.BehindBoth | src/soc/experiment/score6600.py:626-691 | from reset, a branch, an instruction for each outcome and a plain one leave the plain one in flight and writing in no continuation, before any cancellation |
| SpeculationFate.WrongOneFirst | src/soc/experiment/score6600.py:626-691 | from reset, a branch, an instruction for its not being taken, one for its being taken, and the branch taken leave the third in flight and writing in no continuation |
| SpeculationFate.OldestNeverStops | src/soc/experiment/score6600.py:626-691 | in every run in which nobody outlives a unit cancelled before it the oldest unit in flight may read or has read, and asks to write exactly once it has read and its ALU is done |
| SpeculationFate.EverybodyMayWrite | src/soc/experiment/score6600.py:636-648 | with no speculation open and the order shadows right, every unit in flight writes in some continuation: the older ones read and write first |
| Speculation.SelfShadowIsForever | src/soc/experiment/score6600.py:658-666 | over any run a branch under its own shadow never writes and stays so |
| Speculation.BranchIssue | src/soc/experiment/score6600.py:658-677 | issuing the branch leads there if and only if a direction is requested in that cycle |
| Speculation.CancelledClean | src/soc/experiment/compalu.py:91-97 | a cancelled unit is idle, and its request latch is left set if and only if it reads in the same cycle |
| Speculation.RequestStays | src/soc/experiment/compalu.py:91-97 | a request latch left up stays up over any run until the unit writes or is cancelled |
| Speculation.WritesUnread | src/soc/experiment/compalu.py:85-101 | an instruction issued, any number of cycles later, to a unit cancelled while it read has yet to read, and asks to write exactly if its ALU says so and no shadow is up |
| SpeculationHardware.BranchSpeculationRecord.Clock | src/soc/scoreboard/shadow.py:128-151 | the loop over the units updates the records as specified and raises exactly the matches of the recorded directions with the outcome |
| Mmu.MMU.Clock | src/soc/experiment/mmu.py:328-510 | the registers, updated one by one in place in the order of the state handlers, make the step the theorems are about, and the wires of the cycle are those the requests are proved about |
| MmuProof.RootsKeep | src/soc/experiment/mmu.py:105-214 | a cached root that is valid stays the process-table entry of the current (prtbl, pid), over every request, mtspr and tlbie |
| MmuProof.AcceptKeeps | src/soc/experiment/mmu.py:96-185 | accepting a request starts the walk whose outcome is that of the recursive translation |
| MmuProof.WalkKeeps | src/soc/experiment/mmu.py:216-280 | each table entry read moves the machine one level down the recursive walk, or ends it with the walk's own result |
| MmuProof.DispatchQuiet | src/soc/experiment/mmu.py:398-452 | no state handler raises a pulse by itself, and a TLB load carries no failure |
| MmuProof.PulseKeep | src/soc/experiment/mmu.py:454-458 | done and err are up exactly in the state that ends a service, by whether a failure is flagged |
| MmuProof.StepKeeps | src/soc/experiment/mmu.py:96-298 | every clock keeps the state tied to the recursive walk |
| MmuTheorems.CachedRoot | src/soc/experiment/mmu.py:105-214 | after any run from reset with right answers a walk from a valid cached root is the walk that fetches the root afresh |
| MmuTheorems.PulseTells | src/soc/experiment/mmu.py:454-495 | a pulse tells the result: done with no flag for a translation, err with exactly the failing flag otherwise |
| MmuTheorems.PulseEnds | src/soc/experiment/mmu.py:441-458 | a busy cycle shows a pulse if and only if the machine is idle next, and never both wires |
| MmuTheorems.ServedOnce | src/soc/experiment/mmu.py:398-510 | every accepted request gets one pulse, in its last cycle, telling the recursive walk's result |
| MmuTheorems.RankFalls | src/soc/experiment/mmu.py:398-452 | a measure falls in every cycle the cache does not make the walker wait, and stays in the others |
| MmuTheorems.Terminates | src/soc/experiment/mmu.py:398-452 | so any service ends within 109 working cycles |
| MmuTheorems.WidthsAddUp | src/soc/experiment/mmu.py:282-298 | in the walk the bits left plus the index widths taken are the tree size plus 19, and fewer than ten tables were read before |
| MmuTheorems.ShiftFalls | src/soc/experiment/mmu.py:263-275 | a table that is no leaf takes at least five and at most sixteen bits, exactly off the bits left, which never underflow |
| MmuTheorems.AtMostTenLookups | src/soc/experiment/mmu.py:263-298 | one service reads the process table at most once and at most ten tree tables |
| MmuTheorems.InvalidationServed | src/soc/experiment/mmu.py:398-409 | a tlbie or mtspr enters the state that asks for an invalidation in the next cycle, with the scope bit set exactly if it is an mtspr or asks for all entries, and ends with one done pulse and never an err; what goes out on the wires is `MmuBus.InvalidationSent` |
| MmuTheorems.RegistersFollow | src/soc/experiment/mmu.py:172-185 | pid and prtbl change only by an mtspr met when idle, each by its own register number |
| MmuBus.AskedKeeps | src/soc/experiment/mmu.py:460-508 | every read puts the right address on the wires: the process-table entry of (prtbl, effective pid) with the size mask of prtbl, or the entry of the current table; so a truthful answer to it is the answer the walk needs |
| MmuBus.AnswersNeeded | src/soc/experiment/mmu.py:476-508 | over any run a data cache that tells the truth about the address asked tells the truth about the entry needed |
| MmuBus.TodoStep | src/soc/experiment/mmu.py:398-508 | each cycle's wires ask for the first thing the recursive walk still has to ask for, or for nothing if it has nothing to ask yet |
| MmuBus.TranslateLoads | src/soc/experiment/mmu.py:440-447 | a whole translation loads a TLB once if its result is a translation, with that entry and on the side that missed, and not at all otherwise; what the entry is, is `MmuBits.TranslationIsLeaf` |
| MmuBus.AcceptedTodo | src/soc/experiment/mmu.py:96-185 | an accepted request leaves the idle state with all of its translation still to ask for, the process table too unless its root is cached |
| MmuBus.ServedRightly | src/soc/experiment/mmu.py:398-510 | every accepted request is served once and rightly: the wires ask for exactly the reads and the load of the recursive walk, in order; one pulse in the last cycle tells its result; the TLB of the side that missed, and no other, is loaded with the translation, once, if there is one (`MmuBits.TranslationIsLeaf`, `MmuBits.RealBits`) |
| MmuBus.CachedRootIsCurrent | src/soc/experiment/mmu.py:105-214 | after any run from reset, the answers being to what the wires asked, a walk from a valid cached root is the walk that fetches the root afresh |
| MmuBus.InvalidationSent | src/soc/experiment/mmu.py:398-409 | a tlbie or mtspr puts exactly one invalidation on the wires, for all entries exactly if it is an mtspr or asks for it, with the address given, and one done pulse at the end |
| MmuBus.ServiceBounded | src/soc/experiment/mmu.py:398-452 | any translation ends within 109 cycles in which the data cache does not make it wait, after at most one process-table and ten table reads |
| MmuBus.EntriesApart | src/soc/experiment/mmu.py:467-469 | two indices into a table reach one entry if and only if they agree in as many low bits as the index is wide |
| MmuBus.UndrivenIndex | src/soc/experiment/mmu.py:334-336 | with an index wire that says the same for every address, as one that nothing drives does, any two addresses fail alike or end in the same leaf |
| MmuBits.EntryFields | src/soc/experiment/mmu.py:109-123 | a table entry's fields by its bits: the tree size in bits 61, 62 and 5 to 7, the index width in bits 0 to 4, the next table's base in bits 8 to 55 |
| MmuBits.EffPidIs | src/soc/experiment/mmu.py:460-461 | the process number is the register's in the lower half of the address space and zero in the upper |
| MmuBits.ProcEntryBits | src/soc/experiment/mmu.py:460-465 | the process-table address: from bit 4 the low byte of the process number, from bit 12 as many bits of the rest of it as the table's size says, every other bit the table base's |
| MmuBits.TableAdrBits | src/soc/experiment/mmu.py:467-469 | a tree entry's address: from bit 3 as many bits of the index as it is wide, every other bit the base's |
| MmuBits.PteBits | src/soc/experiment/mmu.py:471-473 | the entry loaded: bits 12 to 11 plus the bits left are the address's, every other below 56 the leaf's, none above |
| MmuBits.PteWire | src/soc/experiment/mmu.py:471-508 | that is on the wire in the cycle of a load, and zero in any other |
| MmuBits.PageBits | src/soc/experiment/mmu.py:482-484 | the address a load is for is the effective one with the page offset cleared |
| MmuBits.OutsideExactly | src/soc/experiment/mmu.py:282-290 | a segment error is raised if and only if the two highest bits differ or a bit between the tree's size and them is set |
| MmuBits.FlushExactly | src/soc/experiment/mmu.py:132-140 | a tlbie is for all entries if and only if it is an slbia or one of its two fields is not zero |
| MmuBits.RootsForgotten | src/soc/experiment/mmu.py:141-214 | a cached root stays valid exactly until a tlbie that flushes the process table or an mtspr, of prtbl for the upper half of the address space and of either register for the lower, and becomes valid when its entry is read |
| MmuBits.WalkEndsInLeaf | src/soc/experiment/mmu.py:216-275 | a walk that translates last reads a valid leaf that allows the access and has it recorded, and its entry is that leaf's with the address bits no table took |
| MmuBits.TranslationIsLeaf | src/soc/experiment/mmu.py:96-298 | so does a whole translation, with the root cached or not |
| MmuBits.RealBits | src/soc/experiment/mmu.py:471-473 | so the real address of every address in the page has its low twelve bits and the bits left from the effective one and every other from the leaf |
| Refill.StepKeeps | src/soc/experiment/icache.py:645-713 | every acknowledged row is the row stored to and new; the machine completes exactly with the acknowledgement of the last row, and then nothing is outstanding and every row is flagged |
| Refill.RequestsEachRowOnce | src/soc/experiment/dcache.py:1447-1511 | against any in-order slave with any stalls a refill requests each row of the line exactly once, in wrapping order from the missed row |
| ICache.RealAddr | src/soc/experiment/icache.py:400-420 | translation keeps the page offset |
| ICache.HitWay | src/soc/experiment/icache.py:487-506 | the way chosen hits, and none is chosen only if none hits |
| ICacheProof.RowAgrees | src/soc/experiment/icache.py:487-506 | a row of a valid line, and a flagged row of the line in refill, is the memory row of its tag |
| ICacheProof.HitReadsMemory | src/soc/experiment/icache.py:454-510 | a hit reads the memory row of the translated address, on a partly loaded line too |
| ICacheProof.HitKeeps | src/soc/experiment/icache.py:548-582 | the hit latch keeps presenting the memory row of the instruction, through stalls and `use_previous` |
| ICacheProof.SameRow | src/soc/experiment/icache.py:474-479 | the next instruction in the upper half of a row is four bytes on in the same memory row, whatever the page |
| ICacheProof.RamAfter | src/soc/experiment/icache.py:327-368 | an acknowledged word goes to its row of the way in refill with memory's value, and nothing else changes |
| ICacheProof.ValidAfter | src/soc/experiment/icache.py:622-713 | the way being replaced becomes valid only by completing its refill; no other way becomes valid |
| ICacheProof.LineLoaded | src/soc/experiment/icache.py:678-713 | when a refill completes every row of the line holds memory |
| ICacheProof.LinesKeep | src/soc/experiment/icache.py:622-713 | every valid line of every way holds the memory of its tag after every clock |
| ICacheProof.UniqueKeep | src/soc/experiment/icache.py:487-506 | no two valid ways of a set have one tag |
| ICacheProof.MissKeeps | src/soc/experiment/icache.py:584-620 | a refill starts towards a line that no way of its set holds |
| ICacheProof.RefillKeeps | src/soc/experiment/icache.py:622-713 | while it runs no way holds the line and every flagged row is loaded |
| ICacheProof.StepKeeps | src/soc/experiment/icache.py:717-767 | every clock keeps all of it, with any invalidation, flush, TLB update, stall and victim |
| ICacheTheorems.FetchesMemory | src/soc/experiment/icache.py:454-713 | in every run a valid instruction output is the memory word at the real address held, valid lines are memory's and ways unique |
| ICacheTheorems.HitPresented | src/soc/experiment/icache.py:548-582 | a hit that is not stalled is presented in the next cycle with its own address and memory word, one presented because the last was the lower half of its row with the upper half; a flush leaves nothing presented; a stall keeps what was |
| ICacheTheorems.MissStarts | src/soc/experiment/icache.py:584-620 | a live miss of the idle machine, and nothing else, starts a reload, of the missed line from the missed row |
| ICacheTheorems.OutputIsWord | src/soc/experiment/icache.py:523-536 | the half of the row selected by the effective address is the word of the real one |
| ICacheBits.WordBytes | src/soc/experiment/icache.py:248-250 | the word at an address is four bytes of its row: those from the address on |
| ICacheBits.FetchesBytes | src/soc/experiment/icache.py:523-536 | in every run a valid instruction output is the four bytes of memory at the real address held, lowest first, and nothing above |
| ICacheTheorems.HeldAddress | src/soc/experiment/icache.py:548-582 | the address held is the translation of the request that hit, with access allowed, or four bytes on from the one before |
| ICacheTheorems.SequentialTranslation | src/soc/experiment/icache.py:392-420 | from any address four bytes on in the same row translates, by the same TLB slot, to four bytes on |
| ICacheTheorems.RefillServes | src/soc/experiment/icache.py:487-506 | a request for the missed line hits from the cycle after its row was acknowledged, and in every row once the refill has completed without an invalidation |
| ICacheService.RankFalls | src/soc/experiment/icache.py:454-713 | no cycle takes a held request further from being presented; one without a stall on its hit, or with an acknowledgement during a reload, or idle, presents it or brings it a step nearer |
| ICacheService.HeldIsServed | src/soc/experiment/icache.py:454-713 | a live request held without flush or invalidation, whatever the cache was doing, is presented with its own address and memory word, at the latest with the eleventh cycle of that kind, with the third from the idle state |
| ICacheTheorems.HoldNeeded | src/soc/experiment/icache.py:622-643 | the cycle that clears the victim is sound if and only if fetch presents the set of the miss, or the cache is invalidated, or the victim is invalid there |
| ICacheTheorems.StaleHit | src/soc/experiment/icache.py:632-641 | otherwise a request for the new line then hits and reads the line that was there |
| ICacheTheorems.InvalidationMisses | src/soc/experiment/icache.py:630-741 | an invalidation leaves a way valid if and only if its set is being rewritten by the reload machine in that cycle and the way was valid and is not the one replaced; a line in refill is then not made valid |
| ICacheTheorems.SlotAndTag | src/soc/experiment/icache.py:265-271 | the hashed slot and the tag together determine the page, so no two pages alias |
| ICacheTheorems.TranslatesByLastLoad | src/soc/experiment/icache.py:392-452 | in every run the TLB translates a page by the entry last loaded for it, if no invalidation and no other page's load has taken the slot since, and otherwise misses |
| ICacheBits.HashBits | src/soc/experiment/icache.py:265-271 | the TLB slot of a page, bit by bit, is the exclusive or of three fields of its number |
| ICacheBits.RealAddrBits | src/soc/experiment/icache.py:400-420 | the real address, bit by bit: the page offset of the effective one, above it the page of the entry in its slot, 56 bits in all; without translation the effective one cut to 56 bits |
| ICacheBits.MayFetch | src/soc/experiment/icache.py:403-424 | in every run a fetch is allowed if and only if the entry last loaded for its page still stands and is not privileged or the fetch is; without translation if and only if it is privileged |
| ICacheBits.FetchesFrom | src/soc/experiment/icache.py:403-424 | and goes to the page of that entry |
| CacheRams.CacheRam.Clock | src/soc/experiment/cache_ram.py:21-60 | registered read of the old row; of the addressed row exactly the bytes enabled are written, and no other row changes |
| CacheRams.ClockWays | src/soc/experiment/icache.py:327-368 | every way reads the requested row, and only the way selected is written, in its enabled bytes |
| ICacheHardware.ICacheUnit.ClockRams | src/soc/experiment/icache.py:327-368 | the row memories store the acknowledged word whole in the way in refill, as specified |
| ICacheHardware.ICacheUnit.ClockTags | src/soc/experiment/icache.py:622-713 | invalidation, victim and completion, written in place in that order, give the specified valid bits and tags |
| ICacheHardware.ICacheUnit.Clock | src/soc/experiment/icache.py:797-858 | the clocked cache makes the step the theorems are about and shows the instruction latched before |
| DCacheProof.StoreKeeps | src/soc/experiment/dcache.py:1513-1566 | the counter with last cycle's events is stores taken minus acknowledgements, from one to seven; the machine leaves exactly with the acknowledgement that makes it zero; stores reach the slave once each, in order |
| DCacheProof.ReloadKeeps | src/soc/experiment/dcache.py:1447-1511 | a reload, dcbz included, ends exactly with the eighth acknowledgement, with every row flagged |
| DCacheProof.StepKeeps | src/soc/experiment/dcache.py:1362-1587 | every clock of the bus machine keeps the account |
| DCacheProof.Account | src/soc/experiment/dcache.py:1513-1566 | the three-bit counter is the unbounded count, so it never wraps; idle means nothing outstanding |
| DCacheProof.Accounts | src/soc/experiment/dcache.py:1411-1566 | the same in every run from reset |
| DCacheProof.RequestStarts | src/soc/experiment/dcache.py:1362-1445 | when idle, a load miss, an uncached load or a store, and nothing else, starts a bus cycle, with its first request up and of its own kind |
| DCacheProof.StoreTaken | src/soc/experiment/dcache.py:1513-1566 | while stores are under way the next one to the tag joins them if and only if fewer than seven are outstanding |
| DCacheRowsProof.RowStored | src/soc/experiment/dcache.py:1146-1178 | in a reload the acknowledged row goes to the way being filled with what memory holds there, read from the bus or zero for a line clear |
| DCacheRowsProof.MemoryCleared | src/soc/experiment/dcache.py:1411-1435 | in a reload memory's line changes exactly by a line clear, in the row the slave takes in that cycle, which becomes zero |
| DCacheRowsProof.StepKeeps | src/soc/experiment/dcache.py:1146-1511 | every clock keeps every flagged row of the line in reload equal to memory's, memory being cleared row by row by a line clear |
| DCacheRowsProof.FlaggedRows | src/soc/experiment/dcache.py:1447-1511 | in every run against an in-order slave each row flagged in a reload is memory's row, in the way that is to be validated |
| DCacheRowsProof.LineFilled | src/soc/experiment/dcache.py:1493-1511 | a reload ends exactly with the eighth acknowledgement; the way then made valid, in the set of the request, is the victim of the reload's first cycle if the line was missing and the way that hit if not; it holds memory's line whole, all zero after a line clear |
| DCacheRowsProof.ValidOnlyByFill | src/soc/experiment/dcache.py:1493-1511 | a way is valid in a set if and only if it was, or is the way of the reload that ends in this cycle |
| DCacheRowsProof.HitReadsMemory | src/soc/experiment/dcache.py:904-938 | a load hits on the line in reload if and only if it is for that line and its row has been acknowledged, and reads, in the way then to be replaced, what memory holds of the line it asks for |
| DCacheRowsProof.ElsewhereKept | src/soc/experiment/dcache.py:1153-1178 | a row changes only in the line in reload, or as the row of a store hit, and the two never meet |
| DCacheRowsProof.StoreHitWritten | src/soc/experiment/dcache.py:1153-1161 | a store hit taken in one cycle is written in the next, whatever comes: exactly its bytes, in the row and way it hit |
| DCacheRowsProof.ClearTaken | src/soc/experiment/dcache.py:1411-1435 | a line clear starts to clear its line if and only if it finds the machine idle; it is taken as a store of one word if and only if it joins stores under way |
| DCacheRowsProof.ClearLost | src/soc/experiment/dcache.py:1541-1556 | a store and a line clear to the same tag right behind it: the machine is idle again with one word of zero sent in place of eight |
| DCacheHardware.DCacheUnit.Clock | src/soc/experiment/dcache.py:1106-1587 | bus machine, registers, row memories and valid bits clocked in place make the step the row theorems are about |
| DCache.BusMachine.Clock | src/soc/experiment/dcache.py:1362-1587 | the registers clocked in place make the modelled step |
| L1Cache.Store | src/soc/minerva/cache.py:134-146 | a data write changes exactly one word |
| L1CacheProof.LinesKeep | src/soc/minerva/cache.py:101-151 | every valid line but the one in refill holds the memory of its tag, over memory writes paired with an eviction |
| L1CacheProof.UniqueKeep | src/soc/minerva/cache.py:101-125 | no line is valid under one tag in two ways |
| L1CacheProof.MissMeansAbsent | src/soc/minerva/cache.py:64-79 | no line being in two ways under one tag, the encoder's miss means that no way holds the address |
| L1CacheProof.MissExactly | src/soc/minerva/cache.py:64-79 | in any state one way misses exactly if it does not hit, two exactly if none or both hit |
| L1CacheProof.StepKeeps | src/soc/minerva/cache.py:81-151 | every clock keeps agreement with memory, with or without a write |
| L1CacheProof.HitReadsMemory | src/soc/minerva/cache.py:64-79 | at most one way matches, and outside the line in refill it reads what memory holds |
| L1CacheProof.WaitsKeep | src/soc/minerva/test/test_cache.py:25-35 | if the pipeline stalls on a miss, stage two waits, missing, for as long as its refill runs |
| L1CacheProof.EveryHitReadsMemory | src/soc/minerva/test/test_cache.py:64-65 | then every hit reads memory |
| L1CacheProof.BurstEnds | src/soc/minerva/cache.py:81-114 | a burst ends exactly with its last word or an error; a good one leaves the line whole in the replaced way and has the other way replaced next, an error leaves no way holding it |
| L1CacheProof.SticksExactly | src/soc/minerva/cache.py:81-99 | with a pipeline that stalls on its miss while the refill runs, the end of a burst leaves it missing and the machine in the refill, each waiting for the other, if and only if the burst failed or the cache was flushed in that cycle |
| L1CacheProof.StuckStays | src/soc/minerva/cache.py:92-99 | that wait, and the refill state, last exactly until the pipeline moves |
| L1CacheProof.StuckForGood | src/soc/minerva/cache.py:92-99 | so over any run of a pipeline that stalls on every miss it has no end |
| L1CacheService.SticksWhen | src/soc/minerva/cache.py:81-114 | in any cycle a pipeline that stalls on its miss gets stuck if and only if the burst ends in an error or with a flush, or a flush or eviction takes away the line it reads while it stalls after the burst |
| L1CacheService.SticksInRuns | src/soc/minerva/cache.py:81-114 | over every run of a pipeline that stalls on every miss: it is stuck if and only if one of these has ever happened |
| L1CacheService.MissServed | src/soc/minerva/cache.py:81-114 | a held read miss, with no error, flush or eviction, hits exactly once the bus has brought as many words as a line has, and reads memory's word |
| L1CacheService.NextMissStarts | src/soc/minerva/cache.py:101-104 | when the pipeline then moves the machine checks again, and the next miss starts its own burst at once |
| L1CacheProof.WordsInOrder | src/soc/minerva/test/test_cache.py:37-62 | when no refill runs a valid read of a word that no way holds, and nothing else, starts a burst; it starts at the missed word and goes on in wrapping order |
| L1CacheProof.EvictsUnless | src/soc/minerva/cache.py:105-114 | an eviction removes the address from a way, unless in that cycle a refill of that way ends well, or one of another line in error |
| L1CacheProof.FlushEmpties | src/soc/minerva/cache.py:105-114 | a flush empties every way, whatever else the cycle does |
| L1CacheProof.AgreesWithMemory | src/soc/minerva/test/test_cache.py:8-75 | over every run in which the pipeline stalls on a miss while its refill runs, bus errors, flushes and moving on after them included, every hit is the only one and reads what memory holds now |
| L1CacheHardware.Cache.Clock | src/soc/minerva/cache.py:40-151 | the clocked cache makes the modelled step |
| OrderedSet.OrderedSet.Add | src/soc/decoder/orderedset.py:21-26 | a new key goes to the end, a known one changes nothing; the ring and the map stay whole |
| OrderedSet.OrderedSet.Discard | src/soc/decoder/orderedset.py:28-32 | exactly the key is taken out and the order of the others kept |
| OrderedSet.OrderedSet.Iterate | src/soc/decoder/orderedset.py:34-39 | chasing the links ends and gives the keys in order |
| OrderedSet.OrderedSet.Len | src/soc/decoder/orderedset.py:15-16 | the map's size is the list's length |
| OrderedSet.OrderedSet.Contains | src/soc/decoder/orderedset.py:18-19 | membership in the map is membership in the list |
| OrderedSet.InInsertionOrder | src/soc/decoder/orderedset.py:21-39 | after any operations the list has no key twice, exactly the keys whose latest insertion stands, in the order of those insertions |
| OrderedSet.Play | src/soc/decoder/orderedset.py:8-39 | the object does any sequence of operations so |
| InstructionQ.InstructionQ.Clock | src/soc/scoreboard/instruction_q.py:64-123 | one clock of the ring is one clock of a first-in first-out queue: clamped removal from the front and all-or-nothing addition at the back, together; offered more than its inputs it takes in what the slots beyond them held; an offer taken is accounted for in a sound ring if and only if it is no more than the length; a larger one is always taken, and the pointers and the count move on in their own widths |
| InstructionQ.Removed | src/soc/scoreboard/instruction_q.py:81-92 | what is given is the greatest number not above what is asked or held |
| InstructionQ.InstructionQ.Offer | src/soc/scoreboard/instruction_q.py:64-123 | offering no more than there are inputs is one clock of the queue with exactly these |
| InstructionQ.InstructionQ.Outputs | src/soc/scoreboard/instruction_q.py:96-100 | the outputs are the front of the queue |
| InstructionQ.Conserved | src/soc/scoreboard/instruction_q.py:81-121 | over every run what came out followed by what is held is what was taken in, and never more than the length is held |
| InstructionQ.Play | src/soc/scoreboard/instruction_q.py:64-123 | the ring follows the queue over any run |
| InstructionQ.SafeExactly | src/soc/scoreboard/instruction_q.py:70-113 | pointers wrapping at cap never overwrite a held instruction if and only if the queue admits no more than cap |
| InstructionQ.OverranOk | src/soc/scoreboard/instruction_q.py:76-121 | after an offer above the length, pointers and count agree if and only if the new count is no more than the length |
| InstructionQ.TakenAndLost | src/soc/scoreboard/instruction_q.py:76-121 | four slots, three held and five taken leave a sound empty queue; an offer of twice the length taken leaves all pointers where they were |
| DownConvertProof.StepKeeps | src/soc/bus/wb_downconvert.py:60-97 | one cycle of an access: on the master's acknowledgement a read has shifted in the wide word, a write is made in full; on giving up a proper prefix is written |
| DownConvertProof.FullPrefixIsWide | src/soc/bus/wb_downconvert.py:107-115 | all sub-words written are one byte-masked wide write, and no other wide word changes |
| DownConvertProof.PrefixInWide | src/soc/bus/wb_downconvert.py:105-115 | an abandoned write changes the first sub-words of its own wide word only |
| DownConvertProof.Starts | src/soc/bus/wb_downconvert.py:60-75 | a request, and nothing else, takes the idle converter into an access of its own kind, at the first sub-word |
| DownConvertProof.Apart | src/soc/bus/wb_downconvert.py:105 | wide words do not overlap in narrow addresses |
| DownConvertProof.SlaveAdrIs | src/soc/bus/wb_downconvert.py:105 | the narrow address is the ratio times the wide one plus the counter |
| DownConvertProof.SomePlace | src/soc/bus/wb_downconvert.py:105 | every narrow word is in a wide word, |
| DownConvertProof.OnePlace | src/soc/bus/wb_downconvert.py:105 | in only one and at only one place, |
| DownConvertProof.WideHolds | src/soc/bus/wb_downconvert.py:105-122 | and the wide word has it there |
| DownConvertProof.WriteInNarrow | src/soc/bus/wb_downconvert.py:107-115 | a completed write changes a narrow word if and only if it is in the wide word asked for, by its own sub-word and byte enables |
| DownConvertProof.AccessIsWide | src/soc/bus/wb_downconvert.py:60-122 | every access, for any power-of-two ratio, wait states and pauses: a completed read is the wide read, a completed write the wide write, an abandoned one a proper prefix |
| DownConvertProof.Counts | src/soc/bus/wb_downconvert.py:60-97 | during an access the counter is the number of sub-words answered, and the master is acknowledged exactly in the cycle that makes it the ratio |
| DownConvert.WishboneDownConvert.Clock | src/soc/bus/wb_downconvert.py:49-122 | the clocked converter makes the modelled step, acknowledges with the last sub-word and then shows the shift register |
| ByteMemoryProof.LoadBytes | src/soc/experiment/pimem.py:266-273 | mask and shift bring an access's bytes to the bottom and clear the rest |
| ByteMemoryProof.StoreBytes | src/soc/experiment/pimem.py:278-285 | shift and byte enables change the access's bytes within the word and no other |
| ByteMemoryProof.BitLenExp | src/soc/scoreboard/addr_match.py:145-151 | the byte mask has exactly the access's bytes |
| ByteMemoryProof.BitWidened | src/soc/scoreboard/addr_match.py:154-158 | the wide mask repeats each of them eight times |
| ByteMemoryProof.MisalignExactly | src/soc/experiment/pimem.py:222-226 | the misalignment flag is up exactly for an access that leaves its word |
| ByteMemoryProof.StoreRefines | src/soc/experiment/pimem.py:278-285 | a store within a word is a little-endian store of bytes |
| ByteMemoryProof.LoadRefines | src/soc/experiment/pimem.py:266-273 | a load within a word is a little-endian load of bytes |
| ByteMemoryProof.BytesLastStored | src/soc/experiment/pimem.py:344-358 | after any such operations every byte is the one last stored there |
| ByteMemoryProof.LoadsLastStored | src/soc/experiment/pimem.py:344-358 | and a load brings the bytes last stored |
| ByteMemoryHardware.TestMemory.SetWrData | src/soc/experiment/pimem.py:344-355 | exactly the addressed word is written, lane by lane; within a word that is a store of bytes at the address |
| ByteMemoryHardware.TestMemory.GetRdData | src/soc/experiment/pimem.py:348-358 | a load within a word brings the bytes at the address, lowest first, and zero above them |
| RotateMask.RotlBits | src/soc/decoder/helpers.py:67-72 | bit i of a rotation is the bit so many places to the right, around the end |
| RotateMask.RotlAdds | src/soc/decoder/helpers.py:67-72 | rotations compose by adding amounts |
| RotateMask.RotlBijective | src/soc/decoder/helpers.py:67-72 | a rotation is undone, from both sides, by rotating on to a full turn, and is injective |
| RotateMask.Rotl32Halves | src/soc/decoder/helpers.py:79-82 | both halves of the 32-bit rotate are the word's own rotation |
| RotateMask.MaskBits | src/soc/decoder/helpers.py:85-102 | the mask has exactly the bits x to y counted from the left, going round the end if x comes after y |
| RotateMask.ExtsIsSigned | src/soc/decoder/helpers.py:20-22 | sign extension is the number of the signed range that agrees with the value in its low bits |
| Words.MaskedBits | src/soc/experiment/mmu.py:463-473 | a masked merge takes the low bits from one word and the others from the other |

## Left out

- Cancellation (`go_die`) in the scoreboard refinement: its model has no branch shadow; cancellation is in `Speculation`, with the leftover request latch of `CancelledClean`.
- The group picker takes three arguments where it is called with one (`score6600.py:472`, `score6600.py:481`); modelled with one read and one write port.
- The ALU handshake: an ALU computes a function of the operands captured in the go-read cycle and says "valid" in any cycle it likes. A register is read in the go-read cycle, with a write of the same cycle seen.
- SpeculationFate.NeverWritesExactly: no run or continuation requests a direction together with the branch itself (see `BranchIssue`); a unit in the branch shadow may be cancelled and issued again, so nothing is said of it.
- The five-bit constants at `score6600.py:675` and `score6600.py:677`: every unit is recorded, which is the source's behaviour for the five units it is built with.
- Load/store units, memory function units and the write-after-write grid of the scoreboard.
- ScoreboardTheorems.RefinesSequential: an instruction the simulator does not know still writes what the given ALU function says, so the simulator is taken with that function.
- RegisterSim.RegSim.Do: the immediate is not masked to the register width, as in the source.
- The index wire into an MMU table is an arbitrary function of bits left and effective address: `mmu.py:336` declares it and nothing drives it (what that means is `UndrivenIndex`). The rest of the address is as at `mmu.py:460-469`.
- MMU: the shape of the request after a simultaneous translation request and mtspr; a data cache signalling done and err together.
- ICacheTheorems.FetchesMemory: instruction memory does not change, so an invalidation that misses a set (see `InvalidationMisses`) does no harm here.
- ICacheTheorems.HeldAddress: if the TLB or the mode changes between two halves of a row the second half is still that of the first one's translation.
- The instruction cache's bus error input, stop mark and fetch-failed output.
- The data cache's tags and hit detection (the kind of a request and the way it hits are inputs), its TLB, reservation and forwarding, the buffered output of its row memories, and the addresses of back-to-back stores, whose slice has the wrong width at `dcache.py:1536-1537`.
- The choice of victim: every choice is allowed wherever a cache has more than one way, except in the two-way cache, whose alternation is modelled.
- L1CacheProof.AgreesWithMemory: a store reaches memory in the cycle of its eviction; the write buffer in between is not part of this model.
- OrderedSet: the set algebra inherited from the Python library, and mutation during iteration.
- InstructionQ.Play: its runs offer no more instructions than there are inputs, as the queue's constructor asks; `Clock` says what one clock does with more.
- DownConvert: the burst-type outputs, and ratios that are not a power of two.
- The latch protocol of the memory port around its data path, and `LenExpand` with a cover of one.
- The scoreboard variants for multiple ports, XICS, GPIO, DMI, shifter FSM, register files, JTAG, firmware upload and code generation: variants or shallow.
