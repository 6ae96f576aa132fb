# N64 interrupt controller (libdragon `interrupt.c`) in Dafny

This project models the interrupt controller of libdragon, the N64 homebrew
library, as it is written in `libdragon/src/interrupt.c`. The file has four
parts:

- **Critical-section nesting.** `init_interrupts`, `disable_interrupts`,
  `enable_interrupts` and `get_interrupts_state` share one signed counter,
  `__interrupt_depth`. A negative value means uninitialised, 0 means enabled
  and N > 0 means N nested disables. The CPU's global interrupt-enable (IE)
  bit is written only at the 0/1 boundary.
- **Per-source callback lists.** AI, VI, PI, DP and TI each have a
  singly-linked list. Registering pushes a node at the head. Unregistering
  walks the list with a trailing pointer and unlinks the first matching
  node. Invoking walks the list and calls every non-NULL callback.
- **The MI dispatcher** (`__MI_handler`) and the timer handler
  (`__TI_handler`). The MI handler computes `intr & mask`. For AI, VI, PI and
  DP, in that order, it acknowledges each pending, unmasked source and then
  runs that source's callbacks.
- **Mask configuration** (`set_*_interrupt`). Each call writes one set or
  clear command word to the MI mask register. Arming VI also writes the
  trigger line.

The model is laid out in modules:

- `Hardware` (hardware.dfy): the sources, the MI bit constants and command
  words, the registers the dispatcher reads, and the observable events.
  The events are register writes, IE writes and callback calls.
- `Nesting` (nesting.dfy): the depth/IE state machine as pure functions, and
  lemmas about sequences of calls.
- `Callbacks` (callbacks.dfy): what a callback list means as a sequence. This
  covers the calls that walking it makes and the list left after removing one
  registration.
- `CallbackLists` (callback_list.dfy): the heap-allocated linked list
  (`Node`, `CallbackList`). Its methods are proved against `Callbacks`.
- `Dispatch` (dispatch.dfy): the events of one MI handler run and of each
  `set_*_interrupt` call, as values.
- `Interrupts` (controller.dfy): class `Controller`. It holds the driver's
  globals: the depth, the IE bit and the five lists. Its methods are the
  driver's entry points, each proved against the value-level definitions.
  Every method returns the events it performs, in order.

## Model

| member | source | states |
|---|---|---|
| Hardware.IntrBit | libdragon/src/interrupt.c:43-67 | each MI source's intr/mask bit is a single bit among the six lowest (0x01 SP … 0x20 DP) |
| Hardware.MaskCommand | libdragon/src/interrupt.c:69-92 | each set/clear command word is a single bit: set words use only odd positions (within 0xAAA), clear words only even positions (within 0x555) |
| Hardware.RaisedInPending | libdragon/src/interrupt.c:237 | a source's bit is set in `intr & mask` iff it is both pending and unmasked |
| Hardware.CommandBits | libdragon/src/interrupt.c:69-92 | the command for (s, active) carries the set bit of source t iff t == s and active, and the clear bit iff t == s and not active |
| Hardware.MaskCommandEffect | libdragon/src/interrupt.c:407-475 | writing one source's command word arms that source when active and masks it otherwise; every other source keeps its mask bit, so no read-modify-write is needed |
| Hardware.ClearAllMasksEffect | libdragon/src/interrupt.c:486 | the initialisation word is 0x555 and leaves every MI source masked, whatever the mask held before |
| Nesting.StateOf | libdragon/src/interrupt.c:546-560 | the reported state is Uninitialized iff depth < 0, Enabled iff depth == 0, and Disabled iff depth > 0 |
| Nesting.Init | libdragon/src/interrupt.c:480-494 | with depth >= 0 nothing changes and nothing is written; with depth < 0 the writes are the clear-all mask word and then the IE set, and the result is depth 0 with IE set |
| Nesting.Disable | libdragon/src/interrupt.c:502-515 | with depth < 0 nothing changes; otherwise depth goes up by one; IE is cleared (one write) iff depth was exactly 0, and kept otherwise |
| Nesting.Enable | libdragon/src/interrupt.c:524-537 | with depth < 0 nothing changes; otherwise depth goes down by one; IE is set (one write) iff the new depth is 0, and kept otherwise |
| Nesting.Run | libdragon/src/interrupt.c:28-38 | every sequence of calls keeps the IE bit coherent with the depth (set iff depth 0, once initialised), and only ever writes the IE bit or the clear-all mask word |
| Nesting.RunAppend | libdragon/src/interrupt.c:28-38 | running two call sequences one after the other equals running their concatenation, writes included |
| Nesting.RunDisables | libdragon/src/interrupt.c:502-515 | k nested disables from depth d >= 0 reach depth d + k; only the first one, and only from depth 0, clears IE |
| Nesting.RunEnables | libdragon/src/interrupt.c:524-537 | k enables from depth d >= k reach depth d - k; only the one that reaches 0 sets IE |
| Nesting.NestedSectionRestores | libdragon/src/interrupt.c:28-38 | k disables then k enables restore the starting state; from depth 0 the IE bit is written exactly twice (clear, then set) for every k >= 1, and not at all for k = 0 or from a nested depth |
| Nesting.UninitializedIgnoresNesting | libdragon/src/interrupt.c:502-537 | before initialisation any sequence of disables and enables changes nothing and writes nothing |
| Nesting.UnmatchedEnable | libdragon/src/interrupt.c:28-38 | an enable at depth 0 drops the depth to -1, reported as uninitialised, with no write; the next init runs the whole initialisation again |
| Nesting.RunDepth | libdragon/src/interrupt.c:502-537 | a matched call sequence (no enable without an earlier disable) moves the depth by exactly its disables minus its enables |
| Nesting.BalancedRestores | libdragon/src/interrupt.c:28-38 | any matched, balanced interleaving of calls returns depth and IE to where they started |
| Nesting.QueryThroughSection | libdragon/src/interrupt.c:480-560 | from program start, the states reported after init, disable and enable are Uninitialized, Enabled, Disabled and Enabled, and IE ends set |
| Callbacks.Invocations | libdragon/src/interrupt.c:144-157 | walking a list makes at most one call per entry |
| Callbacks.InvocationsMembers | libdragon/src/interrupt.c:144-157 | walking a list calls only registered functions, and calls every registered function |
| Callbacks.InvocationsAppend | libdragon/src/interrupt.c:144-157 | calls happen in list order: the calls of a front part come before those of the back part |
| Callbacks.InvocationsCount | libdragon/src/interrupt.c:144-157 | each registration of a function gives exactly one call of it, so duplicates run once per registration |
| Callbacks.InvocationsInOrder | libdragon/src/interrupt.c:144-157 | on a list without NULL entries, the i-th call is the i-th entry |
| Callbacks.RemoveFirst | libdragon/src/interrupt.c:191-227 | removal shortens the list by one iff the callback is registered |
| Callbacks.RemoveFirstCounts | libdragon/src/interrupt.c:191-227 | removal takes away exactly one registration of the callback and keeps all others, duplicates included |
| Callbacks.RemoveFirstAbsent | libdragon/src/interrupt.c:199-225 | removing an unregistered callback leaves the list unchanged |
| Callbacks.RemoveFirstAt | libdragon/src/interrupt.c:199-225 | when the first match is at position k, removal splices out position k and keeps the others in order |
| Callbacks.RegisterThenUnregister | libdragon/src/interrupt.c:167-227 | unregistering right after registering gives back the previous list |
| Callbacks.MostRecentRunsFirst | libdragon/src/interrupt.c:167-181 | after registering A and then B, B runs before A; after unregistering A only B runs |
| CallbackLists.Node.constructor | libdragon/src/interrupt.c:110-116 | a new node holds the given callback and next pointer |
| CallbackLists.CallbackList.constructor | libdragon/src/interrupt.c:127-136 | a list starts empty (NULL head) |
| CallbackLists.CallbackList.Register | libdragon/src/interrupt.c:167-181 | on successful allocation the contents become the new callback followed by the old contents, duplicates allowed; on failure the head becomes NULL and the list is empty; the list stays well formed |
| CallbackLists.CallbackList.Unlink | libdragon/src/interrupt.c:203-216 | relinking the predecessor (or the head) around node i removes exactly entry i and keeps the list well formed |
| CallbackLists.CallbackList.Unregister | libdragon/src/interrupt.c:191-227 | the walk with a trailing pointer leaves exactly `RemoveFirst` of the old contents, frees nothing but the removed node, and keeps the list well formed |
| Dispatch.AckWrite | libdragon/src/interrupt.c:249-279 | a source's acknowledgement is a device register write, never a call, an IE write or a mask write |
| Dispatch.Service | libdragon/src/interrupt.c:249-279 | one handler block produces events iff the source is both pending and unmasked, and then its first event is the source's acknowledgement and every later event is a callback call, at most one per list entry |
| Dispatch.MIEvents | libdragon/src/interrupt.c:235-280 | a non-empty handler run starts with the acknowledgement of a driven source, never with a callback call, and has at most four events beyond one per registered entry of the four lists |
| Dispatch.ServiceAckCount | libdragon/src/interrupt.c:249-279 | servicing one source writes another source's acknowledgement never, and its own exactly once iff pending and unmasked |
| Dispatch.AckOncePerRun | libdragon/src/interrupt.c:235-280 | in one MI handler run each driven source is acknowledged exactly once if pending and unmasked, and never otherwise |
| Dispatch.OnlyUndrivenIsSilent | libdragon/src/interrupt.c:235-280 | when no AI/VI/PI/DP bit is both pending and unmasked (for example only SP or SI), the handler writes and calls nothing |
| Dispatch.MaskedSourceNotServiced | libdragon/src/interrupt.c:235-280 | with AI and PI pending but only AI unmasked, the run is the AI status write followed by the AI callbacks and nothing else |
| Dispatch.SetInterruptWrites | libdragon/src/interrupt.c:407-475 | each set call writes exactly one mask command first, the set word when active and the clear word otherwise; a second write (the VI trigger line) happens iff VI is armed, and it is not a mask write |
| Dispatch.ArmedSourceIsServiced | libdragon/src/interrupt.c:235-280 | once a set call's command is written to the mask, a pending source is acknowledged and its callbacks run iff it was armed |
| Interrupts.Controller.constructor | libdragon/src/interrupt.c:105-136 | at program start the depth is -1 and all five lists are empty, each with a freshly allocated footprint |
| Interrupts.Controller.InitInterrupts | libdragon/src/interrupt.c:480-494 | the new depth/IE state and the writes performed are those of `Nesting.Init`; the lists stay well formed |
| Interrupts.Controller.DisableInterrupts | libdragon/src/interrupt.c:502-515 | the new state and the writes are those of `Nesting.Disable`, and IE stays coherent with the depth |
| Interrupts.Controller.EnableInterrupts | libdragon/src/interrupt.c:524-537 | the new state and the writes are those of `Nesting.Enable`, and IE stays coherent with the depth |
| Interrupts.Controller.GetInterruptsState | libdragon/src/interrupt.c:546-560 | returns `StateOf(depth)` and changes nothing; Enabled implies depth 0 and, once coherent, IE set |
| Interrupts.Controller.RegisterHandler | libdragon/src/interrupt.c:297-388 | register_X_handler pushes onto X's list only, or empties X's list on allocation failure; the other four lists keep their contents, and the only objects added to X's footprint are newly allocated nodes |
| Interrupts.RegisterTwice | libdragon/src/interrupt.c:297-300 | two register_AI_handler calls in a row on a controller leave the later callback in front of the earlier one, ahead of the old AI list |
| Interrupts.Controller.UnregisterHandler | libdragon/src/interrupt.c:308-399 | unregister_X_handler removes the first registration from X's list only, and X's footprint only shrinks; the other four lists keep their contents |
| Interrupts.Controller.CallCallbacks | libdragon/src/interrupt.c:144-157 | the loop over the linked nodes makes exactly the calls `Invocations` of the list contents, in order |
| Interrupts.Controller.ServiceSource | libdragon/src/interrupt.c:249-279 | one handler block acknowledges the source and then runs its list iff the source's bit is in `intr & mask` |
| Interrupts.Controller.SetInterrupt | libdragon/src/interrupt.c:407-475 | the writes performed are exactly `SetInterruptWrites` of the source, flag and line |
| Interrupts.Controller.MIHandler | libdragon/src/interrupt.c:235-280 | the events of one run are AI's, then VI's, then PI's, then DP's service, as `MIEvents` of the current lists |
| Interrupts.Controller.TIHandler | libdragon/src/interrupt.c:285-289 | the timer handler only calls the TI list |

## Notes on behaviour

- When allocation fails, `__register_callback` stores NULL into the head, so
  the earlier registrations of that source are lost. `Register` models this
  as it is written: the contents become empty.
- `set_VI_interrupt` writes the mask command before the trigger line. The
  model keeps that order, and `SetInterruptWrites` states it.
- The header comment asks for disable/enable to come in pairs. An enable with
  no matching disable moves the depth from 0 to -1. From then on the
  controller reports itself uninitialised, ignores disable and enable, and
  fully re-initialises on the next `init_interrupts` (`UnmatchedEnable`).
- The IE bit is written only at the outermost boundary for well-nested
  sections (`NestedSectionRestores`). A sequence with equal numbers of
  disables and enables is not necessarily written only twice: disable,
  enable, disable, enable writes the IE bit four times, once per outermost
  boundary. `BalancedRestores` states what does hold for every matched,
  balanced interleaving: depth and IE return to where they started.

## Left out

- The MIPS `mfc0`/`mtc0` sequences that set or clear the Status register's
  IE bit are modelled as a boolean and a `CpuIeWrite` event. The Status
  register's other bits are not modelled, including the IM2 bit (0x400) that
  init also sets.
- The volatile MMIO base addresses and register struct layouts are not
  modelled. Reads are the `Regs` record. Writes are `Event`s returned by each
  method, not stores to device memory.
- `n64_malloc` is an input, `allocOk`. `n64_free` is the removal of the node
  from the list's footprint.
- A callback's own effect is not modelled. A call is recorded as
  `Call(fn)`, where the function is named by a number.
- The exception vector that chooses between `__MI_handler` and
  `__TI_handler`, and the timer acknowledgement done there, are not part of
  this model.
- Preemption and re-entrancy between normal and interrupt context are not
  modelled: the model is sequential. In particular, a callback cannot change
  a list while that list is being walked.
- The `if( head )` guards in `__register_callback` and
  `__unregister_callback` are not modelled. Every wrapper passes the address
  of a global, so the guard never fails.
- Interrupts.Controller.DisableInterrupts: `__interrupt_depth` is a C `int`.
  Its 32-bit overflow after about 2^31 nested disables is not modelled;
  depth is unbounded.
- Interrupts.Controller.SetInterrupt: `active` is a C `int` and is modelled as
  a boolean (non-zero is true). The register widths are modelled as `bv32`.
- Hardware.MaskCommandEffect: it is stated against `ArmedAfter`, where the MI mask register's response to a command word is
  given per source, from the command-word layout. A word carrying both the
  set and the clear bit of one source is modelled as leaving that source
  alone. The driver never writes such a word.
- The SP and SI branches of `__MI_handler` are empty in the source. They
  produce no events, and SP and SI interrupts are never acknowledged.
