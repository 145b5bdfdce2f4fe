# Verified models of the firmware's protocols

This project models the parts of an STM32H7 firmware (Ethernet radio on FreeRTOS and lwIP) whose correctness depends on
more than one function body: the zero-copy Ethernet driver glue, the interrupt-masking locks of newlib with the C++
construction guards on top of them, the socket wrappers of mbedTLS, the debouncers of the rear panel inputs, the heap
break of newlib and the NTP time stamps. Everything is proved with Dafny 4.11; `dafny verify dfyconfig.toml` checks it.

| module | models |
|---|---|
| `RxPool`, `RxRuns` | the receive pool as a state machine over atomic steps of the interrupts, the input task, the link thread and any number of tasks inside `pbuf_free`; conservation of the buffers and wake-up of the input task |
| `RxLedger` | the books of the receive path, kept from the steps of a run alone: what is armed, linked, handed over, accepted, refused and freed, and by whom |
| `RxStall`, `RxWakeup` | when reception can stall for good: by a chain of unfinished packets, and by the link thread |
| `RxDriver` | the callbacks that share the pool, as methods on the driver's variables, tied to the steps of `RxPool` |
| `RxChain` | the pbuf chain of a packet under reception, built in place on the heap |
| `TxOutput` | the transmit path: descriptor list, busy retries, reference counts |
| `Lan8742`, `LinkThread` | bring-up and supervision of the PHY link, down to the registers of the PHY |
| `StmLock`, `StmLockCode` | lock strategies 2 (PRIMASK) and 4 (BASEPRI): the abstract lock that saves masks, its traces, well nested or not, and both implementations as refinements of it |
| `CxaGuard`, `CxaGuardCode` | `__cxa_guard_acquire`, `_release` and `_abort` interleaved over any number of tasks and guards, over either lock strategy; and the three functions themselves |
| `NetSockets` | ownership of socket descriptors in bind, connect and accept |
| `Debounce` | `Read_Remote` as a function of the whole sample history |
| `Sbrk` | `_sbrk` with 32-bit addresses that wrap |
| `NtpTime` | the NTP request and the decoding of a reply |
| `LwipPbuf`, `Wrappers` | the `struct pbuf` shared by both directions, and `Option` |

## Where the code does not meet its promise

These are results: each comes with the exact condition under which the promise holds, and with an input that fails it.

* **Receive wake-up.** `HAL_ETH_RxAllocateCallback` raises the sticky flag after its failed allocation. In the input task
  (priority Realtime, `LWIP/Target/ethernetif.c:293`) nothing runs in between, but the link thread (priority BelowNormal,
  `LWIP/App/lwip.c:116-121`) reaches the same callback through `HAL_ETH_Start_IT`. `RxWakeup.StartLosesIff`: a start can
  lose the wake-up, and with it stall reception for good with buffers in the pool, if and only if pool and descriptors
  together have fewer buffers than there are descriptors while the stack holds one that can come back.
  `RxWakeup.CoveredStartsKeepWakeup`: if no start is made in such a state, no wake-up is ever lost.
  `RxWakeup.StallReachable` reaches the stall from power-up, and `RxStall.StallIsForever` shows that it is final.
* **Packets cut short.** A stop of the MAC in the middle of a packet leaves the buffers linked so far in the chain, since
  neither `HAL_ETH_Stop_IT` nor `HAL_ETH_Start_IT` resets `pRxStart`
  (`Drivers/STM32H7xx_HAL_Driver/Src/stm32h7xx_hal_eth.c:763-909`). With buffers of 1536 bytes and the MAC's watchdog at
  2 KiB (`Drivers/STM32H7xx_HAL_Driver/Src/stm32h7xx_hal_eth.c:2966-2967`) a packet takes at most two buffers.
  `RxWakeup.ShortPacketsStallIff`: with such packets, and no start in a state of the kind above, reception can stall for good
  if and only if the MAC is started at least nine times; `RxStall.NineBuffersStall` is the run, nine starts each followed by
  only the first half of a packet. In general, with such starts, a stall is possible if and only if a chain can reach nine buffers
  (`RxWakeup.CoveredStallPossibleIff`), so never while chains stay within eight.
* **Transmission errors.** The comment at `LWIP/Target/ethernetif.c:380-381` promises an error value for a packet that
  could not be sent. The HAL sets its BUSY bit on a busy answer and clears it only in `HAL_ETH_Init`
  (`Drivers/STM32H7xx_HAL_Driver/Src/stm32h7xx_hal_eth.c:422`), so after the first busy answer a stopped MAC makes
  `low_level_output` retry instead (`TxOutput.StoppedAfterBusyNeverReturns`; exact condition in `TxOutput.TransmitOutcome`).
* **Link state.** `LinkThread.InStepIff`: over any sequence of PHY readings and bus errors the MAC runs exactly while the
  link flag is up if and only if `HAL_ETH_Init` succeeded and no fatal bus error occurs while the flag is up (or it failed
  and the PHY never reports a mode). After a bus error the MAC can be neither stopped nor started, and the link is announced
  over a dead MAC (`LinkThread.BusErrorRun`); all calls succeed and alternate if and only if the flag never changes after the
  HAL has failed (`LinkThread.AlternatingIff`). Since `linkchanged` is never reset, the MAC can also be started with an
  outdated mode (`LinkThread.StaleConfig`, `LinkThread.StartIsCurrentIff`).
* **Locks released in another order.** Strategy 2 keeps interrupts masked while anything is held if and only if the lock that
  starts a session is never given up before the others (`StmLock.ProtectedIff`, `StmLock.CrossedReleasePrimask`). Under
  strategy 4 the same condition decides whether the mask is ever lost or left raised (`StmLock.MaskRightIff` with
  `StmLock.BasepriRefines`); `StmLock.CrossedRelease` does both.
* **Nested constructors.** A guard call hangs exactly on recursive initialisation or on more nested constructors than the
  lock can save masks for (`CxaGuard.BlocksIff`). The build selects strategy 4 (`.cproject:92`), which can save two, so the
  third nested constructor hangs although nothing is initialised recursively (`CxaGuard.TooManyConstructorsHang`).
* **`_sbrk`.** The check against the stack limit wraps: all runs of increments stay below it if and only if the limit is
  at most 0x80000000 (`Sbrk.SafeIff`), which holds for the linker script of the board (`Sbrk.BoardIsSafe`).
* **NTP.** The client reads seconds as RFC 2030 (section 3) does, except for the years 1968 to 1970
  (`NtpTime.AgreesWithRfcIff`).

## Model

| member | source | states |
|---|---|---|
| RxPool.StepConserves | LWIP/Target/ethernetif.c:482-504 | no step changes in how many places a buffer is |
| RxPool.BuffersConserved | LWIP/Target/ethernetif.c:98-99 | after any run of any number of tasks each of the twelve buffers is in exactly one of pool, descriptors, packet under assembly, input task, stack and pbuf_free calls, and no other buffer exists |
| RxPool.StepKeepsRetry | LWIP/Target/ethernetif.c:598-602 | every flip of the flag from error to ok leaves a token, a pending signal or an input task about to read, until the descriptors are rebuilt, an allocation fails again or the MAC is stopped |
| RxPool.StepKeepsWakeup | LWIP/Target/ethernetif.c:876-896 | if failures are atomic: an error flag means that someone who has returned a buffer has yet to clear it, or that the pool is empty and a descriptor lacks a buffer; in particular a non-empty pool implies the former |
| RxPool.RunsStayGood | LWIP/Target/ethernetif.c:461-504 | the two properties above hold after every run from power-up, under every interleaving; and the input task is outside `pbuf_free` except after a refusal |
| RxPool.InterleavedFree | LWIP/Target/ethernetif.c:590-603 | a pbuf_free call interleaved with any other steps returns the buffers of its chain in order, each once, all of them by its end; meanwhile everybody together lowers the flag at most once if no allocation fails |
| RxPool.FreeChainReturnsAll | LWIP/Target/ethernetif.c:590-603 | freeing a chain of k buffers puts exactly these k on the pool, leaves the flag low and signals if it was up |
| RxPool.FreeCall | LWIP/Target/ethernetif.c:590-603 | the atomic steps of an uninterrupted `pbuf_free` call compose to the whole-call function |
| RxLedger.ArmedInOrder | Drivers/STM32H7xx_HAL_Driver/Src/stm32h7xx_hal_eth.c:1152-1223 | over any run buffers are linked into packets in the order in which they were attached to descriptors, and those attached are the rest |
| RxLedger.PacketsHandedOver | Drivers/STM32H7xx_HAL_Driver/Src/stm32h7xx_hal_eth.c:1065-1140 | the linked buffers, cut behind the last buffer of each packet, are the packets handed to `netif->input`, whole, once and in order, then the one on its way; the rest is the chain |
| RxLedger.StackHoldsAccepted | LWIP/Target/ethernetif.c:493-496 | the stack has one packet per accepting answer, in order, each less what the stack has begun to free of it |
| RxLedger.DriverFreesRefused | LWIP/Target/ethernetif.c:496-499 | what the driver has returned to the pool, and what it still holds in `pbuf_free`, are the refused packets, one after the other, each buffer once, and nothing else |
| RxLedger.RefusedIsFreed | LWIP/Target/ethernetif.c:496-499 | between a refusal and going on the input task returns exactly the packet refused |
| RxLedger.StackFreesItsOwn | LWIP/Target/ethernetif.c:590-603 | every other `pbuf_free` call returns what the stack gave it, in order |
| RxLedger.WaitsAfterFailedRead | LWIP/Target/ethernetif.c:487-502 | the input task waits exactly after a read that found no packet, because of the flag, the MAC or an incomplete packet; after each packet it reads again |
| RxLedger.MacHistory | Drivers/STM32H7xx_HAL_Driver/Src/stm32h7xx_hal_eth.c:763-909 | the MAC runs if and only if the latest start has completed with no stop or bus error since; the counts of starts and unfinished packets are those of the steps |
| RxLedger.BusErrorIsFinal | Drivers/STM32H7xx_HAL_Driver/Src/stm32h7xx_hal_eth.c:1908-1922 | after a fatal bus error the MAC never runs again |
| RxLedger.RetryOwedIff | LWIP/Target/ethernetif.c:598-602 | a retry is owed if and only if some step has flipped the flag to ok and no later one rebuilt the descriptors or failed to |
| RxStall.StallIsForever | LWIP/Target/ethernetif.c:461-471 | with the flag up and nothing left to free, no packet is read or delivered in any continuation |
| RxStall.DriverHoldsAllIff | LWIP/Target/ethernetif.c:98-99 | pool, descriptors and unfinished packet hold all twelve buffers if and only if neither the stack nor a pbuf_free call holds any |
| RxStall.AtomicStallIff | LWIP/Target/ethernetif.c:876-896 | with atomic failures a reachable state is stalled if and only if the flag is up, nobody is inside pbuf_free_custom and descriptors and unfinished packet hold all twelve buffers |
| RxStall.AtomicFailureStall | LWIP/Target/ethernetif.c:876-896 | then the pool is empty, a descriptor lacks a buffer and the unfinished chain has at least nine |
| RxStall.JustifiedStall | LWIP/Target/ethernetif.c:876-896 | the same for any stall in which an allocation would still fail, whether or not failures are atomic |
| RxStall.NineBuffersStall | LWIP/Target/ethernetif.c:461-471 | such a state with exactly nine is reachable from power-up by nine starts of the MAC, each followed by only the first half of a packet of two buffers |
| RxStall.AtomicStallPossibleIff | LWIP/Target/ethernetif.c:461-504 | for chains of up to m buffers and atomic failures a stall is possible if and only if m is at least nine |
| RxWakeup.ReadUntilExhausted | LWIP/Target/ethernetif.c:482-504 | from any state ready to read there is a run of arriving packets that empties the pool and leaves a descriptor without a buffer |
| RxWakeup.StartFails | Drivers/STM32H7xx_HAL_Driver/Src/stm32h7xx_hal_eth.c:763-811 | a start with fewer buffers in pool and descriptors than there are descriptors can use up the pool and be left between failed allocation and flag |
| RxWakeup.EverythingReturns | LWIP/Target/ethernetif.c:590-603 | meanwhile all pbuf_free calls can finish and the stack can free all its packets |
| RxWakeup.UncoveredStartStalls | LWIP/Target/ethernetif.c:890-894 | so from every state in which such a start is made while a buffer can come back, that start can end in a stall with buffers in the pool |
| RxWakeup.CoveredStartsKeepWakeup | LWIP/Target/ethernetif.c:876-896 | if every start finds a buffer for each descriptor in pool and descriptors, or no buffer outside the driver, the wake-up is kept in every state of every interleaving |
| RxWakeup.StartLosesIff | Drivers/STM32H7xx_HAL_Driver/Src/stm32h7xx_hal_eth.c:1152-1223 | for every reachable state a start can lose the wake-up, or end in a stall for good with buffers in the pool, if and only if that condition fails |
| RxWakeup.StallReachable | LWIP/Target/ethernetif.c:890-894 | a stalled state is reachable from power-up in which all twelve buffers are free or armed |
| RxWakeup.NoLostWakeupIff | LWIP/Target/ethernetif.c:876-896 | without any condition on the starts, the wake-up is kept in all reachable states if and only if the link thread's failure and its raising of the flag are atomic |
| RxWakeup.CoveredStallPossibleIff | LWIP/Target/ethernetif.c:876-896 | with interruptible failures and starts that meet the condition, a stall of any kind is possible if and only if a chain can reach nine buffers |
| RxWakeup.StepKeepsOnePerStart | Drivers/STM32H7xx_HAL_Driver/Src/stm32h7xx_hal_eth.c:1065-1140 | packets of at most two buffers leave at most one buffer in the chain per start of the MAC |
| RxWakeup.ShortPacketsStallIff | Drivers/STM32H7xx_HAL_Driver/Src/stm32h7xx_hal_eth.c:763-909 | with such packets and starts a stall is possible if and only if the MAC is started at least nine times |
| RxDriver.Driver.RxAllocateCallback | LWIP/Target/ethernetif.c:876-896 | a buffer with one reference is taken from the pool, or the flag is raised; the same as the allocation step of the machine |
| RxDriver.Driver.PbufFreeCustom | LWIP/Target/ethernetif.c:590-603 | the buffer is back in the pool, and a raised flag is lowered and signalled |
| RxDriver.Driver.PbufFree | Middlewares/Third_Party/LwIP/src/core/pbuf.c:728-804 | exactly the longest prefix of the chain with single references is freed; those pbufs and the first survivor lose one reference, no others |
| RxChain.AddToAllTotals | LWIP/Target/ethernetif.c:921-926 | adding the new length to all totals and a new zero keeps every total the sum of the lengths from there to the end |
| RxChain.TotalsExactIff | LWIP/Target/ethernetif.c:921-926 | the sixteen-bit totals are the true sums if and only if the packet is shorter than 65536 bytes |
| RxChain.DriverTotalsExact | LWIP/Target/ethernetif.c:98-99 | twelve buffers of 1536 bytes stay below that, so the driver's totals are always exact |
| RxChain.AddToAll | LWIP/Target/ethernetif.c:923-926 | the update loop stops and adds the length to the total of every pbuf of the chain, leaving links and lengths alone |
| RxChain.RxDescList.LinkLast | LWIP/Target/ethernetif.c:909-919 | the buffer becomes the last one of an acyclic chain that keeps the arrival order |
| RxChain.RxDescList.Chain | LWIP/Target/ethernetif.c:905-919 | so does an uninitialised one, with its length and a total of zero |
| RxChain.RxDescList.RxLinkCallback | LWIP/Target/ethernetif.c:898-936 | start and end pointers span the chain of all buffers in arrival order, each once, null-terminated, with suffix-sum totals |
| RxChain.RxDescList.TakePacket | Drivers/STM32H7xx_HAL_Driver/Src/stm32h7xx_hal_eth.c:1040-1142 | a complete packet is handed out intact and the list starts empty again although the end pointer is stale |
| RxChain.BuildPacket | LWIP/Target/ethernetif.c:898-936 | repeated callbacks from an empty start with distinct buffers build exactly their chain, with exact totals for what the pool can hold |
| TxOutput.FollowFilled | LWIP/Target/ethernetif.c:401-416 | following the `next` pointers of the filled entries yields the segments in order |
| TxOutput.LengthOfBuffers | LWIP/Target/ethernetif.c:419-421 | with lwIP's invariant of `tot_len`, `TxConfig.Length` is the sum of the lengths of the buffers sent |
| TxOutput.FillTxBuffers | LWIP/Target/ethernetif.c:398-417 | on every chain, cyclic or not, the loop stops; it rejects exactly those with more than four segments, and otherwise entry j holds payload and length of pbuf j and points to entry j + 1 |
| TxOutput.TransmitOutcome | LWIP/Target/ethernetif.c:425-452 | for all answers of the HAL: the call ends at the first accepted one, or at once in error if the MAC is stopped and was never busy; by then exactly the packets finished during the earlier answers have been released, oldest first, and its own packet has joined those under way if and only if it was accepted |
| TxOutput.StoppedAfterBusyNeverReturns | Drivers/STM32H7xx_HAL_Driver/Src/stm32h7xx_hal_eth.c:994-1031 | after one busy answer a stopped MAC never lets the call return |
| TxOutput.EthTx.ReleaseTxPacket | LWIP/Target/ethernetif.c:938-945 | each finished packet loses its transmission's reference, oldest first; references stay balanced |
| TxOutput.EthTx.Attempt | LWIP/Target/ethernetif.c:427-450 | one attempt ends, retries or fails as the HAL's answer and its BUSY bit say, and drops the reference only on failure |
| TxOutput.EthTx.Others | LWIP/Target/ethernetif.c:427-440 | references taken and given up by other tasks during the wait keep every count balanced |
| TxOutput.EthTx.TransmitLoop | LWIP/Target/ethernetif.c:425-452 | the loop does what the specification function says and keeps the one extra reference exactly while it is retrying |
| TxOutput.EthTx.Send | LWIP/Target/ethernetif.c:423-452 | from the answers alone: result, transmissions under way, and that each reference count has lost its share of the transmissions finished meanwhile |
| TxOutput.EthTx.LowLevelOutput | LWIP/Target/ethernetif.c:389-455 | a packet of more than four segments is rejected with nothing changed; at every return each reference count is the number of owners plus the transmissions under way, the call has added one if and only if it returns ERR_OK, each count has lost its share of the transmissions finished while the call waited, and all other changes are those the owners made meanwhile; the length submitted is the sum of the lengths of the buffers submitted |
| LinkThread.ErrorOrInStep | Drivers/STM32H7xx_HAL_Driver/Src/stm32h7xx_hal_eth.c:1908-1922 | after any readings and bus errors the HAL is in error if and only if its initialisation failed or a bus error came while the link was up, and otherwise it agrees with the link flag |
| LinkThread.InStepIff | LWIP/Target/ethernetif.c:816-866 | the MAC runs exactly while the link flag is up, after every event, if and only if the HAL was initialised and no bus error comes while the flag is up, or it was not and no definite mode is ever read |
| LinkThread.AlternatingIff | Drivers/STM32H7xx_HAL_Driver/Src/stm32h7xx_hal_eth.c:763-909 | all starts and stops succeed and strictly alternate if and only if the link flag never changes after the HAL has failed |
| LinkThread.BusErrorRun | Drivers/STM32H7xx_HAL_Driver/Src/stm32h7xx_hal_eth.c:1921 | a run in which a bus error after a good start leads to a failed stop and a link announced over a dead MAC |
| LinkThread.ConfigIsLastDefinite | LWIP/Target/ethernetif.c:826-866 | each successful start uses the most recent definite mode seen in the bring-up branch, there is no start before one was seen, and every bring-up after that starts |
| Lan8742.LinkStateIsBits | Drivers/BSP/Components/lan8742/lan8742.c:259-336 | for all register contents a reading is negative exactly if a needed read fails, 1 without the link bit, 6 while negotiating, and otherwise the mode of the speed and duplex bits |
| LinkThread.IterateOnRegisters | LWIP/Target/ethernetif.c:818-866 | one iteration on the registers: the link bit keeps a link up and its absence, or a failed read, takes it down and stops the MAC; settled registers bring it up with exactly their speed and duplex; unsettled ones do so only with a mode seen before |
| LinkThread.InitOnRegisters | LWIP/Target/ethernetif.c:303-365 | low_level_init on the registers: the same, and 100 Mbit/s full duplex while the mode is unsettled |
| LinkThread.StartUsesLatestSettled | LWIP/Target/ethernetif.c:826-866 | over any run, a MAC brought up by the thread has the mode of the latest settled registers read while the link was down |
| LinkThread.StartIsCurrentIff | LWIP/Target/ethernetif.c:851-865 | a start uses the mode read in the same iteration if and only if that reading was definite |
| LinkThread.StaleConfig | LWIP/Target/ethernetif.c:809 | a run in which the MAC is started with an outdated mode |
| LinkThread.EthLink.LowLevelInit | LWIP/Target/ethernetif.c:303-365 | the method leaves the specified state, or hangs in Error_Handler exactly when the specification has no state |
| LinkThread.EthLink.LinkThread | LWIP/Target/ethernetif.c:805-874 | the loop over any readings, with bus errors in between, does what the iterated specification says |
| StmLock.WellNestedMask | Core/ThreadSafe/stm32_lock.h:160-194 | for any well-nested trace over any number of locks the mask is raised while anything is held and back at its starting value afterwards |
| StmLock.WellNestedBlocks | Core/ThreadSafe/stm32_lock.h:171-188 | such a trace blocks if and only if it nests one lock deeper than the lock can remember |
| StmLock.ExecRefinesStep | Core/ThreadSafe/stm32_lock.h:160-194 | an operation of strategy 2, with one flag and a counter, is one of the abstract lock |
| StmLock.PrimaskRefines | Core/ThreadSafe/stm32_lock.h:160-194 | so is every well-nested trace |
| StmLock.ProtectedIff | Core/ThreadSafe/stm32_lock.h:182-194 | for any trace, nested or not: interrupts stay masked while anything is held if and only if the lock that started the session is never given up early |
| StmLock.WellNestedNeverEarly | Core/ThreadSafe/stm32_lock.h:182-194 | well-nested traces never give it up early |
| StmLock.CrossedReleasePrimask | Core/ThreadSafe/stm32_lock.h:182-194 | a trace that does, and enables interrupts while a lock is held |
| StmLock.BasepriRefines | Core/ThreadSafe/stm32_lock.h:293-310 | on every trace over any number of locks, nested or not, strategy 4 blocks, saves and restores as the abstract lock |
| StmLock.MaskRightIff | Core/ThreadSafe/stm32_lock.h:293-310 | for any such trace the mask is neither lost while anything is held nor left raised when nothing is, if and only if the lock that started the session is never given up early |
| StmLock.CrossedRelease | Core/ThreadSafe/stm32_lock.h:304-310 | a trace of strategy 4 that loses the mask and then leaves it raised |
| StmLockCode.PrimaskLock.LockAcquire | Core/ThreadSafe/stm32_lock.h:160-176 | the code of strategy 2 does the specified step; it blocks exactly at nesting level 255 |
| StmLockCode.PrimaskLock.LockRelease | Core/ThreadSafe/stm32_lock.h:182-194 | likewise; it blocks exactly at level 0 and enables interrupts only at the outermost release of a lock taken unmasked |
| StmLockCode.BasepriLock.constructor | Core/ThreadSafe/stm32_lock.h:279-287 | an initialised lock has saved nothing |
| StmLockCode.BasepriLock.LockAcquire | Core/ThreadSafe/stm32_lock.h:293-298 | the code of strategy 4 is a step of the abstract lock with two levels, and blocks at the third |
| StmLockCode.BasepriLock.LockRelease | Core/ThreadSafe/stm32_lock.h:304-310 | the masks come back in reverse order; at level 0 the eight-bit wrap to 255 is caught before the array is read |
| CxaGuard.StepKeepsInv | Core/ThreadSafe/newlib_lock_glue.c:363-429 | every step and every context switch keeps: only the running task is past the raising of the mask or constructs anything, the mutex counts correctly, the guards agree with the history |
| CxaGuard.InitializedOnce | Core/ThreadSafe/newlib_lock_glue.c:416-429 | in every interleaving each object is released at most once, acquires that return 1 were called before that, and acquires that return 0 leave it initialised |
| CxaGuard.ReleasedOnce | Core/ThreadSafe/newlib_lock_glue.c:420-429 | in every interleaving a release of an object is called at most once, and from its first step on, and only then, the object is initialised |
| CxaGuard.AcquireReturns | Core/ThreadSafe/newlib_lock_glue.c:363-393 | the result of the latest acquire of any task: 0 if the release had been called before; otherwise 1, and that task constructs the object, or 0, and somebody has initialised it meanwhile |
| CxaGuard.ConstructionsBalance | Core/ThreadSafe/newlib_lock_glue.c:363-429 | every acquire that returned 1 is matched by one release or one abort, or its construction is going on |
| CxaGuard.AcquireIsExclusive | Core/ThreadSafe/newlib_lock_glue.c:371-383 | an acquire is about to return 1 only if nobody else constructs the object and nobody has |
| CxaGuard.LateAcquireReturnsZero | Core/ThreadSafe/newlib_lock_glue.c:367-392 | an acquire called after the release returns 0 and touches nothing |
| CxaGuard.MutexAccounting | Core/ThreadSafe/newlib_lock_glue.c:350-388 | while user code runs, the nesting of the mutex is the number of objects under construction, all by the running task, and the mask is raised while there are any and as it was at the start otherwise |
| CxaGuard.BlocksIff | Core/ThreadSafe/newlib_lock_glue.c:374-413 | a guard call hangs exactly on recursive initialisation of one object or on more nested constructors than the lock can save; the other checks never fire |
| CxaGuard.TooManyConstructorsHang | Core/ThreadSafe/stm32_lock.h:264-271 | for either strategy a run that nests one constructor too many and hangs at an object nobody is constructing |
| CxaGuard.PrimaskMutex | Core/ThreadSafe/stm32_lock.h:160-194 | after every interleaved run the flag and the counter of strategy 2 stand for the masks saved by the abstract lock, and block and restore next as it does |
| CxaGuard.BasepriMutex | Core/ThreadSafe/stm32_lock.h:293-310 | so do the array and the nesting level of strategy 4, and although the level is checked before the mask is raised the array is never indexed out of bounds |
| CxaGuardCode.GuardApi.GuardAcquire | Core/ThreadSafe/newlib_lock_glue.c:363-393 | returns 1 with the mutex held and the guard acquired, 0 if the object is or becomes initialised, and hangs exactly on recursion or at the nesting limit |
| CxaGuardCode.GuardApi.GuardAbort | Core/ThreadSafe/newlib_lock_glue.c:399-414 | gives the guard and one level of the mutex back; hangs exactly without an acquire |
| CxaGuardCode.GuardApi.GuardRelease | Core/ThreadSafe/newlib_lock_glue.c:420-429 | also marks the object initialised |
| CxaGuardCode.GuardApi.ConstructOnce | Core/ThreadSafe/newlib_lock_glue.c:353-356 | acquire, release, acquire returns 1 and then 0, with mask and mutex as before |
| NetSockets.NetBind | MBEDTLS/App/net_sockets.c:189-253 | in terms of the answers of the calls: 0 with exactly one new open descriptor, bound for the first entry for which all of them succeeded; or no such entry, the open set unchanged, and the code of the call that failed for the last entry |
| NetSockets.NetConnect | MBEDTLS/App/net_sockets.c:118-184 | the same for socket() and connect() |
| NetSockets.NetAccept | MBEDTLS/App/net_sockets.c:290-393 | on every path, including each early exit of the UDP hijack, the open descriptors are those of the two contexts and of others, each with one holder; when the listener is lost; each result if and only if the answers call for it; `*ip_len` is set for an IPv4 client, and for others only in a build with IPv6 |
| Debounce.CurrentRun | Core/Src/main.c:467-484 | the length of the maximal run of equal samples at the end |
| Debounce.SampleKeepsDebounced | Core/Src/main.c:467-484 | one call keeps counters and status functions of the whole history: at most one counter runs, it is the current run or 501, and the status is the value of the latest 500 equal samples |
| Debounce.DebouncedDetermines | Core/Src/main.c:467-484 | that description leaves no freedom |
| Debounce.AfterIsDebounced | Core/Src/main.c:463-519 | for every history of any length the channel is exactly the described one |
| Debounce.GlitchesRejected | Core/Src/main.c:70 | a settled status survives any disturbance of fewer than 500 samples |
| Debounce.Remote.ReadRemote | Core/Src/main.c:463-519 | each of the three channels is a function of its own samples alone |
| Sbrk.TileOnce | Core/Src/sysmem.c:53-79 | of regions that tile an interval, each address lies in exactly one |
| Sbrk.CallKeepsSafe | Core/Src/sysmem.c:61-78 | a call extends the tiling, or is refused, exactly when it would pass the limit, and changes nothing |
| Sbrk.RunIsSafe | Core/Src/sysmem.c:53-79 | so the regions of any run of increments tile the heap below the stack limit |
| Sbrk.OverrunIsUnsafe | Core/Src/sysmem.c:70 | with a limit above 0x80000000 a run of increments wraps past the check |
| Sbrk.SafeIff | Core/Src/sysmem.c:53-79 | all runs are safe if and only if the limit is at most 0x80000000 |
| Sbrk.BoardIsSafe | STM32H743VITX_FLASH.ld:38-49 | the board's memory map meets that condition |
| Sbrk.StaysInBoundsIff | Core/Src/sysmem.c:70-76 | for increments of either sign, when a call keeps the heap end in its bounds |
| Sbrk.Heap.Sbrk | Core/Src/sysmem.c:53-79 | returns the old heap end and advances it, or -1 with ENOMEM |
| NtpTime.SwapSends | Core/Src/freertos.c:632-633 | a word reversed on the little-endian core is sent in network order |
| NtpTime.SwapReceives | Core/Src/freertos.c:695 | four bytes in network order are read by reversing the word they form |
| NtpTime.Packet.Set | Core/Src/freertos.c:624-634 | the 48 bytes sent are a client request of version 4: only the first byte and the transmit seconds since 1900 are set |
| NtpTime.RoundTrip | Core/Src/freertos.c:695-699 | decoding a packet that carries a time returns it if and only if it is in [0, 2^32), also beyond 2036 |
| NtpTime.OffsetIsSeventyYears | Core/Src/freertos.c:110 | the offset is the number of seconds from 1900 to 1970 in the Gregorian calendar |
| NtpTime.AgreesWithRfcIff | Core/Src/freertos.c:695-699 | when the decoded time is the one that section 3 of RFC 2030 gives |

## Left out

- The bodies of the HAL, FreeRTOS, lwIP and the sockets API: they appear as contracts, as lists of answers, or as steps of a machine. Of the DMA only the set of armed descriptors and the order of completion is modelled, not registers, caches or packet data.
- Address, null-pointer and interrupt-context checks of the lock functions, strategies 1, 3 and 5, and the `__retarget_lock_*` wrappers, which allocate a lock or pass it on.
- RxPool: the allocation in the input task is one step because of its Realtime priority; the link thread runs only while that task waits without a token. A retry counts as lost neither while the MAC is stopped, where the next start rebuilds the descriptors, nor after a fatal bus error, which ends reception.
- RxDriver.Driver.PbufFree: reference counts are unbounded, in the source they are one byte wide.
- RxDriver, CxaGuardCode and StmLockCode hold the functions run without interruption; interleavings are the subject of `RxPool` and `CxaGuard`.
- TxOutput.EthTx.LowLevelOutput: does not promise to return, because the HAL may answer busy forever; the outcome `Retrying` is the state after any finite list of answers. Other tasks touch only packets they own, and act before each answer of the HAL.
- LinkThread.EthLink.LinkThread: the endless loop is run over any finite list of readings; the delay between them is not modelled. The HAL's state is reduced to ready, started and error. A bus error strikes between iterations: one inside `HAL_ETH_Start_IT` or `HAL_ETH_Stop_IT` is overwritten by the state these store at their end.
- CxaGuard: `basepri[nesting_level++] = …` is taken to advance the level after the mask is raised; C leaves that order open. That a context switch is impossible under a raised mask is an assumption about the scheduler. So is that a constructor leaves the mask as it found it: under strategy 4 a FreeRTOS critical section inside a constructor sets BASEPRI to 0 at its end, and the guarantees are void from there. Releases and aborts are paired with acquires of the same task, as the compiler generates them.
- CxaGuardCode: over the lock of strategy 2 only; `CxaGuard` covers both.
- NetSockets: after a failed connect or bind `ctx->fd` keeps a stale value, so ownership is only claimed when the call returns 0. The copying of the client's address and the restoring of errno are not modelled.
- Debounce: the three inline blocks of `Read_Remote` are three methods.
- Sbrk: pointer arithmetic that overflows is taken to wrap, as it does on the core. Tiling is stated for increments that are not negative.
- NtpTime: `time_t` is taken to be 64 bits wide. The network calls of the client appear as "no reply". The time-zone adjustment adds an offset to the hour without carrying into the date and is not modelled.
- Peripheral set-up, graphics, file systems, audio, USB and shell code.
