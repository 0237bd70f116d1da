# STM32 LVGL demo firmware: a verified model of its core

This project models the application logic of an STM32F4 firmware that runs the LVGL
graphics library under FreeRTOS. It covers seven parts, one group of modules each:

- **The cyclic pager** (`Core/Src/cyclic_pager.c`). Three page objects (prev, curr, next)
  show an unbounded logical index. A jump or a drag moves them. When the animation
  ends, the slot pointers rotate and the page that left is refilled.
- **The block-table allocator** (`lib/MALLOC/malloc.c`). Its memory map holds one entry
  per block. Allocation scans top-down for a free run and stamps it with its length.
  Free clears that run. Usage is reported in per-mille.
- **The scene manager** (`Core/Src/scene_manager.c`). A table of scene descriptors, the
  current and previous scene, a transition guard, and the start/end values of each
  switch animation.
- **The demo screen** (`Core/Src/lvgl_demo.c`):
  - the page provider of the pager, with its circular index;
  - `lvgl_demo_entry`;
  - the icon carousel, with its wrap-around loops, its snap offset on release and its
    image zoom clamp.
- **The clock and the logger** (`Core/Src/rtc.c`, `Core/Src/log.c`, `Core/Inc/log.h`):
  - the sub-second to millisecond conversion, and the fixed-width `HH:MM:SS.mmm`
    timestamp written into the caller's buffer;
  - the prescalers that divide the oscillators down to 1 Hz;
  - the level gating of `log_output` and of the `LOG_*` macros, the basename
    extraction, and the shape of a log line.
- **The UART line receiver** (`Core/Src/uart_rx_task.c`). The byte-by-byte accumulator of
  the receive-complete interrupt, and one iteration of the receive task that reports, echoes and
  resets it.
- **The SD card figures** of `show_sdcard_info` (`Core/Src/main.c`). Capacity in
  bytes, MB and GB. Sectors, and usage in percent with one decimal.

## How the model is built

Code that updates state in place is a Dafny `class`:

- `CyclicPager.Pager`, `Malloc.Bank`, `SceneManager.Manager` and `IconScroller.Scroller`;
- `Rtc.Clock` and `Log.Logger`;
- `UartRxTask.Receiver`.

The class keeps the source's fields: the slot records, the map and pool `array`s, the
scene table `array`, the icon `array` and the receive buffer `array`. Each method's
contract ties the new state (`State()`) to a pure function of the old state. Those
functions live in value-level modules: `PagerSpec`, `MallocSpec`, `SceneSpec`, `DemoSpec`
and `UartRxSpec`. The properties that span several calls are lemmas about those functions:
`PagerProperties`, `SceneProperties`, the lemmas in `MallocSpec`, `DemoSpec` and
`UartRxSpec`, and `DemoPager`. `CInt` writes out C's `uint32_t` wrap-around and its
truncating `/` and `%`.

Calls into code outside the model are recorded, not performed:

- the page provider;
- the scene load and unload callbacks;
- `lv_anim_start` and `lv_anim_del`.

They go into a log field (`fills`, `calls`), so "calls no fill" and "calls unload only
when loaded" can be stated.

LVGL animations land at their end values. The pager's completion is an explicit
`AnimComplete` event. The hardware's answers are parameters:

- whether the LSE oscillator starts;
- the RTC reading, or its failure;
- the touch point's position;
- the image size;
- the received byte and its UART instance.

## Model

| member | source | states |
|---|---|---|
| CyclicPager.Pager.constructor | Core/Src/cyclic_pager.c:189-215 | A new pager is `PagerSpec.Create`: animation time 250, snap ratio 50, idle, not dragging, aligned, index 0, nothing filled. |
| CyclicPager.Pager.FillPageInPlace | Core/Src/cyclic_pager.c:5-9 | Only the named slot's content changes, to the provider's drawing of the index or to blank without a provider; the fill is logged. |
| CyclicPager.Pager.SetXInPlace | Core/Src/cyclic_pager.c:18-21 | Only the x of the named slot changes. |
| CyclicPager.Pager.AlignPagesInPlace | Core/Src/cyclic_pager.c:11-16 | The slots end at curr 0, prev -width and next +width, with nothing else changed. |
| CyclicPager.Pager.AnimReadyInPlace | Core/Src/cyclic_pager.c:23-42 | The state becomes `AnimReady`: rotate once by the pending direction, refill the vacated slot, realign, and clear busy and direction. |
| CyclicPager.Pager.RotateInPlace | Core/Src/cyclic_pager.c:27-38 | The slot rotation of the ready callback: forward, backward, or none when the pending direction is 0. |
| CyclicPager.Pager.RotateToNext | Core/Src/cyclic_pager.c:28-32 | curr and next swap, and the new next is filled with index + 1. |
| CyclicPager.Pager.RotateToPrev | Core/Src/cyclic_pager.c:33-37 | curr and prev swap, and the new prev is filled with index - 1. |
| CyclicPager.Pager.DoJumpInPlace | Core/Src/cyclic_pager.c:44-88 | The state becomes `DoJump`: no change while busy, otherwise placing, index moved at once, and the far slot prefilled. |
| CyclicPager.Pager.JumpPlaceInPlace | Core/Src/cyclic_pager.c:47-55 | Busy set, direction recorded, moving slot at ±width, curr at 0, index moved by the direction; see also line 80. |
| CyclicPager.Pager.DragUpdatePositionsInPlace | Core/Src/cyclic_pager.c:90-96 | curr is at dx, with prev and next one width either side. |
| CyclicPager.Pager.DragStartInPlace | Core/Src/cyclic_pager.c:98-105 | Dragging starts at the touch point with zero displacement and aligned slots; there is no busy guard. |
| CyclicPager.Pager.DragContinueInPlace | Core/Src/cyclic_pager.c:107-116 | The state becomes `DragContinue`. |
| CyclicPager.Pager.DragReleaseInPlace | Core/Src/cyclic_pager.c:118-166 | The state becomes `DragRelease`. |
| CyclicPager.Pager.HandleInputEvent | Core/Src/cyclic_pager.c:168-187 | Press, pressing, release and gesture events dispatch to their handlers; other events change nothing. The pager invariants are kept. |
| CyclicPager.Pager.AnimComplete | Core/Src/cyclic_pager.c:23-42 | Animations land at their end values and the ready callback runs; afterwards the pager is idle, aligned, direction 0, and the invariants hold; see also lines 63-77, 139-164. |
| CyclicPager.Pager.LandInPlace | Core/Src/cyclic_pager.c:63-77 | Only slot x positions change, to the animations' end values; a rollback lands aligned; see also lines 144-164. |
| CyclicPager.Pager.SetProvider | Core/Src/cyclic_pager.c:217-224 | The index becomes init; curr, prev and next are filled in that order with init, init - 1 and init + 1. The invariants hold, and so do the bindings when no jump is pending. |
| CyclicPager.Pager.BindAndFill | Core/Src/cyclic_pager.c:219-223 | The provider and index are stored, then the three fills are made. |
| CyclicPager.Pager.Next | Core/Src/cyclic_pager.c:226-229 | No change while busy. Otherwise busy, direction +1, index + 1. |
| CyclicPager.Pager.Prev | Core/Src/cyclic_pager.c:231-234 | No change while busy. Otherwise busy, direction -1, index - 1. |
| CyclicPager.Pager.Refresh | Core/Src/cyclic_pager.c:236-239 | Only curr is refilled, with the current index; no flag, index or other slot changes. |
| PagerSpec.Content | Core/Src/cyclic_pager.c:5-9 | What a fill of an index leaves in a page: the provider's drawing of that index, or nothing without a provider. `SetProviderEstablishesBindings` and `Bindings` use it to state which index each page shows. |
| PagerSpec.FillPage | Core/Src/cyclic_pager.c:5-9 | The named slot's content becomes the provider's drawing of the index, or blank with no provider. The other slots and all flags stay; the fill is appended to the log. |
| PagerSpec.AlignPages | Core/Src/cyclic_pager.c:11-16 | curr at 0, prev at -width, next at +width. Identity, content and every other field are unchanged. |
| PagerSpec.AnimReady | Core/Src/cyclic_pager.c:23-42 | Always clears busy and direction and aligns. Forward: next becomes curr, old curr becomes next filled with index + 1. Backward is the mirror with prev. Direction 0: no slot moves and nothing is filled. |
| PagerSpec.DoJump | Core/Src/cyclic_pager.c:44-88 | No-op while busy. Otherwise busy, direction recorded, index ± 1, curr at 0, moving slot at ±width, and the far slot prefilled with the old index. |
| PagerSpec.DragUpdatePositions | Core/Src/cyclic_pager.c:90-96 | curr at dx, prev and next exactly one width either side, everything else unchanged. |
| PagerSpec.DragStart | Core/Src/cyclic_pager.c:98-105 | Dragging from the touch point's x with zero displacement and aligned slots. Busy, direction, index and fills are untouched. |
| PagerSpec.ClampDx | Core/Src/cyclic_pager.c:113-114 | For a nonnegative width the result is dx clamped to [-width, width], exactly at each bound. |
| PagerSpec.DragContinue | Core/Src/cyclic_pager.c:107-116 | No-op unless dragging and idle. Otherwise stores the unclamped dx, places curr at the clamped dx with the sides spaced, and leaves the index and fills alone. |
| PagerSpec.DragRelease | Core/Src/cyclic_pager.c:118-166 | No-op unless dragging, and always ends the drag. dx ≤ -threshold is `DoJump(+1)`; otherwise dx ≥ threshold is `DoJump(-1)`. Otherwise a rollback: no slot, index or fill change, busy with direction 0, or unchanged when already busy. |
| PagerSpec.Gesture | Core/Src/cyclic_pager.c:181-186 | Left is a jump forward, right a jump back, other directions nothing. |
| PagerSpec.Land | Core/Src/cyclic_pager.c:63-77 | Only x positions change; a rollback lands aligned; see also lines 144-164. |
| PagerSpec.Create | Core/Src/cyclic_pager.c:189-215 | Defaults 250 and 50, width and height stored, idle, not dragging, direction 0, aligned, index 0, no provider, blank pages, no fills. |
| PagerSpec.SetProvider | Core/Src/cyclic_pager.c:217-224 | Provider and index stored; curr/prev/next hold init, init - 1 and init + 1; three fills in source order; flags and positions unchanged. |
| PagerSpec.Refresh | Core/Src/cyclic_pager.c:236-239 | Exactly curr's content and the fill log change. |
| PagerSpec.Rotated | Core/Src/cyclic_pager.c:27-38 | The slot swap and refill of `anim_ready_cb` for the pending direction. `AnimReady`'s contract states the result per direction, and `RotatedIgnoresDrag` shows it ignores the drag flag. |
| PagerSpec.JumpPlaced | Core/Src/cyclic_pager.c:46-55 | The start of a jump: busy, direction recorded, the incoming slot at ±width, curr at 0 and the index moved as at line 80. `DoJump`'s contract states these fields. |
| PagerSpec.Threshold | Core/Src/cyclic_pager.c:123 | width·snap_ratio/100 with C's truncating division. `DragRelease` commits at or beyond it, and `ScenarioCommit` shows 150 for a width of 300. |
| PagerSpec.HandleInput | Core/Src/cyclic_pager.c:168-187 | Dispatch on the event code. `InputPreservesInvariants` shows every event keeps the invariants and bindings, and `BusyRejects` that pressing and gestures do nothing while busy. |
| PagerSpec.AnimComplete | Core/Src/cyclic_pager.c:23-42 | The animations land, then the ready callback runs once. `AnimCompleteWellFormed` keeps the invariants, and `JumpRound` shows a completed jump ends idle and aligned. |
| PagerSpec.NextPage | Core/Src/cyclic_pager.c:226-229 | `do_jump(+1)`. `BusyRejects` makes it a no-op while busy, `DragCommitMatchesNext` equates it with a long left drag, and `IndexAlgebra` counts its effect on the index. |
| PagerSpec.PrevPage | Core/Src/cyclic_pager.c:231-234 | `do_jump(-1)`. `BusyRejects` makes it a no-op while busy, `DragCommitMatchesPrev` equates it with a long right drag, and `IndexAlgebra` counts its effect on the index. |
| PagerProperties.DoJumpWellFormed | Core/Src/cyclic_pager.c:44-88 | A jump keeps the invariants: direction in {-1, 0, 1}, the slots a permutation of the three pages, and bindings preserved. |
| PagerProperties.AnimCompleteWellFormed | Core/Src/cyclic_pager.c:23-42 | Completion keeps the invariants and the bindings. |
| PagerProperties.InputPreservesInvariants | Core/Src/cyclic_pager.c:168-187 | Every input event keeps the invariants and the bindings. |
| PagerProperties.ReleasePreservesInvariants | Core/Src/cyclic_pager.c:118-166 | A release keeps the invariants and the bindings. |
| PagerProperties.StepPreservesInvariants | Core/Inc/cyclic_pager.h:13-31 | Every enabled public step keeps the invariants (pending direction in {-1, 0, 1}, slots a permutation of the three pages). Every step except `set_provider` during a pending jump keeps the bindings prev/curr/next = index - 1/index/index + 1. |
| PagerProperties.SetProviderWellFormed | Core/Src/cyclic_pager.c:217-224 | `set_provider` keeps the invariants, and with no jump pending it establishes the bindings. |
| PagerProperties.RefreshWellFormed | Core/Src/cyclic_pager.c:236-239 | `refresh` keeps the invariants and the bindings. |
| PagerProperties.SetProviderEstablishesBindings | Core/Src/cyclic_pager.c:217-224 | With no jump pending, every page shows the provider's content for index - 1, index and index + 1. |
| PagerProperties.SetProviderDuringCommit | Core/Src/cyclic_pager.c:28-32 | `set_provider` during a forward jump shows init + 1 in curr after completion while the index is init, so the bindings break; see also lines 217-224. |
| PagerProperties.IndexAlgebra | Core/Src/cyclic_pager.c:79-80 | Accepted and completed jumps give index = init + #next - #prev, keep the invariants, land aligned, and keep the bindings; see also lines 226-234. |
| PagerProperties.JumpRound | Core/Src/cyclic_pager.c:23-88 | One accepted, completed jump moves the index by its direction and ends idle and aligned with the invariants and bindings kept. |
| PagerProperties.DragCommitMatchesNext | Core/Src/cyclic_pager.c:126-128 | A drag past -threshold, once completed, leaves the same slots, fills and index as `next`; see also lines 226-229. |
| PagerProperties.DragCommitMatchesPrev | Core/Src/cyclic_pager.c:129-131 | A drag past +threshold, once completed, leaves the same slots, fills and index as `prev`; see also lines 231-234. |
| PagerProperties.JumpIgnoresDrag | Core/Src/cyclic_pager.c:44-88 | A jump does not read the drag flag. |
| PagerProperties.CompleteIgnoresDrag | Core/Src/cyclic_pager.c:23-42 | Completion does not read the drag flag. |
| PagerProperties.LandIgnoresDrag | Core/Src/cyclic_pager.c:63-77 | Landing does not read the drag flag; see also lines 144-164. |
| PagerProperties.RotatedIgnoresDrag | Core/Src/cyclic_pager.c:27-38 | The rotation does not read the drag flag. |
| PagerProperties.FillIgnoresDrag | Core/Src/cyclic_pager.c:5-9 | A fill does not read the drag flag. |
| PagerProperties.AlignIgnoresDrag | Core/Src/cyclic_pager.c:11-16 | Aligning does not read the drag flag. |
| PagerProperties.RollbackRestores | Core/Src/cyclic_pager.c:132-165 | A short drag, once completed, is idle and aligned with the same index, fills and slot contents. |
| PagerProperties.BusyRejects | Core/Src/cyclic_pager.c:46 | While animating: `next`, `prev`, pressing and gestures change nothing; see also lines 109, 184-185. |
| PagerProperties.PressWhileBusyIsNotRejected | Core/Src/cyclic_pager.c:98-105 | A press during a jump still starts a drag, because `drag_start` has no busy guard. |
| PagerProperties.ScenarioCommit | Core/Src/cyclic_pager.c:118-131 | Width 300: the threshold is 150, and a drag of -200 commits to index + 1. |
| PagerProperties.ScenarioRollback | Core/Src/cyclic_pager.c:132-165 | Width 300: a drag of -100 rolls back with no index, content or fill change. |
| MallocSpec.Blocks | lib/MALLOC/malloc.c:167-169 | The block count is the ceiling of size/blksize, positive exactly for positive sizes. |
| MallocSpec.Fill | lib/MALLOC/malloc.c:108-113 | Entries [o, o + k) take the value and all others are kept. |
| MallocSpec.Zeroed | lib/MALLOC/malloc.c:120-125 | Every entry is zero. |
| MallocSpec.RunLen | lib/MALLOC/malloc.c:173-180 | The length of the maximal free run upward from an index: the top-down counter `cmemb` at that index. |
| MallocSpec.Fit | lib/MALLOC/malloc.c:171-191 | The highest start below the bound of a free run of the needed length, or none exists. |
| MallocSpec.Malloc | lib/MALLOC/malloc.c:153-194 | `MallocCharacterised`: size 0 or no fitting run fails with the table unchanged, and with size > 0 a fitting run means success. A success takes the highest fitting run, returns its aligned offset and stamps exactly that run. `MallocThenFree` shows free undoes it. |
| MallocSpec.Free | lib/MALLOC/malloc.c:205-231 | Codes 0, 1 or 2. Code 2 exactly for a ready bank and an offset beyond the pool, and then the table is unchanged. |
| MallocSpec.CountUsed | lib/MALLOC/malloc.c:137-140 | The number of used entries, zero exactly for an all-free table. |
| MallocSpec.Perused | lib/MALLOC/malloc.c:132-143 | The 16-bit usage figure. |
| MallocSpec.UsageOf | lib/MALLOC/malloc.c:142 | The figure is below 0x10000, as a `uint16_t` return. |
| MallocSpec.ForwardCopy | lib/MALLOC/malloc.c:93-99 | Bytes outside the destination range are unchanged. |
| MallocSpec.FreeRunIffRunLen | lib/MALLOC/malloc.c:171-182 | A free run of n at o exists exactly when the run counter there reaches n. |
| MallocSpec.InitLeavesNothingUsed | lib/MALLOC/malloc.c:120-125 | After `my_mem_init` nothing is used and the usage is 0; see also lines 132-143. |
| MallocSpec.PerusedBounded | lib/MALLOC/malloc.c:132-143 | Without wrap-around the usage is used·1000/size, at most 1000, and 1000 exactly when every block is used. |
| MallocSpec.PerMille | lib/MALLOC/malloc.c:142 | For c ≤ len: no wrap, at most 1000, and 1000 exactly when c = len. |
| MallocSpec.DivExact | lib/MALLOC/malloc.c:189 | A block offset divides back to its block index; see also line 217. |
| MallocSpec.CountAllUsed | lib/MALLOC/malloc.c:137-140 | Every entry is used exactly when the count is the table length. |
| MallocSpec.MallocCharacterised | lib/MALLOC/malloc.c:153-194 | Size 0 and no fitting run give 0xFFFFFFFF with the table unchanged. With size > 0 and a fitting free run the allocation succeeds. A successful offset is a block multiple at the highest fitting free run, inside the pool. Exactly that run is stamped with its length. |
| MallocSpec.BlockOffset | lib/MALLOC/malloc.c:189 | A run's byte offset is block-aligned, inside the pool and not the failure value. |
| MallocSpec.FitIsHighest | lib/MALLOC/malloc.c:171-191 | The scan finds the highest fitting run. |
| MallocSpec.NoFit | lib/MALLOC/malloc.c:193 | With no fitting run the scan finds none. |
| MallocSpec.MallocFits | lib/MALLOC/malloc.c:189 | An allocation lies inside the pool. |
| MallocSpec.StampThenClear | lib/MALLOC/malloc.c:184-187 | Clearing a freshly stamped run restores the table; see also lines 220-223. |
| MallocSpec.MallocThenFree | lib/MALLOC/malloc.c:153-231 | Freeing a fresh allocation returns 0 and restores the table exactly. |
| MallocSpec.FreeClearsAllocation | lib/MALLOC/malloc.c:215-225 | Freeing the start of an n-block allocation returns 0 and clears exactly its n entries. |
| MallocSpec.PtrBelowBaseRejected | lib/MALLOC/malloc.c:239-246 | A pointer below the pool wraps to a huge offset, and free rejects it with 2 and no change; see also lines 215, 229. |
| MallocSpec.AddressRoundTrip | lib/MALLOC/malloc.c:245 | `myfree` recovers the offset `mymalloc` added to the base; see also line 266. |
| MallocSpec.ForwardCopyDisjoint | lib/MALLOC/malloc.c:93-99 | For disjoint ranges the first n destination bytes equal the source bytes. |
| MallocSpec.ForwardCopySmears | lib/MALLOC/malloc.c:93-99 | With an overlapping source just below the destination, the forward copy repeats the first byte. |
| MallocSpec.Ready | lib/MALLOC/malloc.c:160-163 | The lazy `my_mem_init` of an unready bank. `Bank.MemMalloc`'s contract applies `Malloc` to it, and `InitLeavesNothingUsed` shows the cleared table is empty. |
| MallocSpec.FreeRun | lib/MALLOC/malloc.c:171-182 | n free blocks from o inside the table. `FreeRunIffRunLen` ties it to the scan's counter, and `FitIsHighest` shows the scan takes the highest such run. |
| MallocSpec.Stamp | lib/MALLOC/malloc.c:184-187 | The run's entries take the block count. `MallocCharacterised` states the stamped table, and `MallocEntriesFit` shows the count fits a 16-bit entry. |
| MallocSpec.ClearRun | lib/MALLOC/malloc.c:217-223 | m[index] entries from index on become 0, stopping at the table's end. `FreeClearsAllocation` and `StampThenClear` show it undoes a stamp exactly. |
| MallocSpec.FreeOffset | lib/MALLOC/malloc.c:245 | ptr - base in `uint32_t`. `AddressRoundTrip` shows it recovers `mymalloc`'s offset, and `PtrBelowBaseRejected` that a pointer below the pool wraps out of range. |
| MallocSpec.MallocEntriesFit | lib/MALLOC/malloc.c:184-187 | With fewer than 65536 blocks in the table, every entry `my_mem_malloc` writes fits the 16-bit `MT_TYPE`, so the store keeps the block count whole. |
| Malloc.MemSet | lib/MALLOC/malloc.c:108-113 | The count bytes from o hold the value, the rest are unchanged. |
| Malloc.MemCopy | lib/MALLOC/malloc.c:93-99 | The array becomes the forward byte-by-byte copy. |
| Malloc.Bank.constructor | lib/MALLOC/malloc.c:72-84 | An unready bank with the given table, block size and base. |
| Malloc.Bank.MemSize | lib/MALLOC/malloc.c:72-74 | The pool size `memsize` that `my_mem_free` checks offsets against, taken as the table length times the block size. `MallocSpec.Free` rejects with code 2 at or beyond it. |
| Malloc.Bank.MemInit | lib/MALLOC/malloc.c:120-125 | Ready, and every map entry zero. |
| Malloc.Bank.MemPerused | lib/MALLOC/malloc.c:132-143 | Returns the specified usage of the current map, without changing it. |
| Malloc.Bank.MemMalloc | lib/MALLOC/malloc.c:153-194 | After the lazy init, the result and the new map are `MallocSpec.Malloc`; the pool is untouched. |
| Malloc.Bank.FindRun | lib/MALLOC/malloc.c:171-191 | The top-down scan returns the highest fitting start, or -1 exactly when none fits. |
| Malloc.Bank.StampRun | lib/MALLOC/malloc.c:184-187 | Exactly the run's entries become its length. |
| Malloc.Bank.MemFree | lib/MALLOC/malloc.c:205-231 | The code and the new map are `MallocSpec.Free`, and the bank is ready afterwards. |
| Malloc.Bank.ClearFrom | lib/MALLOC/malloc.c:217-223 | The entries of the run starting at the index are cleared. |
| Malloc.Bank.MyFree | lib/MALLOC/malloc.c:239-247 | NULL changes nothing. Otherwise `my_mem_free` of the 32-bit offset from the base; the pool is untouched. |
| Malloc.Bank.MyMalloc | lib/MALLOC/malloc.c:255-268 | NULL on failure, otherwise base + offset with size bytes inside the pool; the map is `Malloc`'s. |
| Malloc.Bank.MyRealloc | lib/MALLOC/malloc.c:277-292 | On failure NULL and the old block is not freed. Otherwise size bytes are copied forward into the new block and the old block is freed. |
| SceneSpec.Zero | Core/Src/scene_manager.c:17 | The zeroed manager: no scene, no transition, no registered loader or name. |
| SceneSpec.AnimTable | Core/Src/scene_manager.c:52-104 | No animation exactly for NONE, OVER_LEFT and OVER_RIGHT. Moves end at 0. Fade runs transparent→cover, zoom-in 0→256, zoom-out 512→256. |
| SceneSpec.ApplyAnimation | Core/Src/scene_manager.c:37-108 | Only the transition flag and the call log change. The flag stays set only for a positive time and a handled type. |
| SceneSpec.Register | Core/Src/scene_manager.c:148-164 | Fails with no change exactly for an id ≥ SCENE_MAX or a missing loader. Otherwise only that descriptor is overwritten, not loaded, with no screen. |
| SceneSpec.Init | Core/Src/scene_manager.c:126-143 | `SceneProperties.InitRegistersPredefined`: the NULL context guard, then a zeroed manager holding the four predefined scenes. |
| SceneSpec.UnloadCurrent | Core/Src/scene_manager.c:212-227 | True exactly when there is a current scene. current, previous and the flag never change; no other descriptor changes. |
| SceneSpec.Load | Core/Src/scene_manager.c:169-207 | `SceneProperties.LoadGuards`: success exactly when `CanLoad` holds, with no change otherwise. `LoadEffect`: current and previous shift, the old scene is unloaded, the calls come in source order and the flag is set as the animation requires. |
| SceneSpec.Unloaded | Core/Src/scene_manager.c:181-186 | `SceneProperties.UnloadedEffect`: the flag is set, and only a loaded current scene with an unloader is unloaded. |
| SceneSpec.Loaded | Core/Src/scene_manager.c:189-191 | `SceneProperties.LoadEffect`: the scene's loader is called, and the scene is marked loaded on the active screen. |
| SceneSpec.Back | Core/Src/scene_manager.c:232-239 | `SceneProperties.BackToggles`: two backs separated by the ready callback restore current and previous. `BackWithoutHistory`: with no previous scene, back fails with no change. |
| SceneSpec.AnimReady | Core/Src/scene_manager.c:115-118 | Only the transition flag changes, to false. |
| SceneSpec.SceneName | Core/Src/scene_manager.c:252-258 | "Unknown" for id ≥ SCENE_MAX, otherwise the registered name. |
| SceneSpec.CanLoad | Core/Src/scene_manager.c:171-178 | Valid id, no transition running and a registered loader. `LoadGuards` proves `load` succeeds exactly when these hold, with no change otherwise. |
| SceneSpec.Animated | Core/Src/scene_manager.c:194-200 | A refresh and the animation for a positive time and a real type, otherwise the transition closed at once. `AnimatedEffect` shows only the flag and the call log change. |
| SceneManager.Manager.constructor | Core/Src/scene_manager.c:17 | The zeroed global manager. |
| SceneManager.Manager.Register | Core/Src/scene_manager.c:148-164 | Result and new state are `SceneSpec.Register`. |
| SceneManager.Manager.Init | Core/Src/scene_manager.c:126-143 | Result and new state are `SceneSpec.Init`. |
| SceneManager.Manager.UnloadCurrent | Core/Src/scene_manager.c:212-227 | Result and new state are `SceneSpec.UnloadCurrent`. |
| SceneManager.Manager.ApplyAnimation | Core/Src/scene_manager.c:37-108 | The new state is `SceneSpec.ApplyAnimation`. |
| SceneManager.Manager.Load | Core/Src/scene_manager.c:169-207 | Result and new state are `SceneSpec.Load`. |
| SceneManager.Manager.BeginLoad | Core/Src/scene_manager.c:181-186 | Flag set, and the current scene unloaded if any. |
| SceneManager.Manager.RunLoadCb | Core/Src/scene_manager.c:189-191 | The loader is called and the scene is marked loaded with the active screen. |
| SceneManager.Manager.Animate | Core/Src/scene_manager.c:194-200 | The animation is applied, or the flag is cleared. |
| SceneManager.Manager.Back | Core/Src/scene_manager.c:232-239 | Result and new state are `SceneSpec.Back`. |
| SceneManager.Manager.AnimReady | Core/Src/scene_manager.c:115-118 | The state becomes `SceneSpec.AnimReady`. |
| SceneManager.Manager.GetCurrentScene | Core/Src/scene_manager.c:244-247 | Returns the current scene id, which is below SCENE_MAX. |
| SceneManager.Manager.GetSceneName | Core/Src/scene_manager.c:252-258 | Returns the registered name, or "Unknown" for id ≥ SCENE_MAX. |
| SceneManager.Manager.IsTransitioning | Core/Src/scene_manager.c:263-266 | Returns the transition flag. |
| SceneProperties.InitRegistersPredefined | Core/Src/scene_manager.c:126-143 | NULL context: false, no change. Otherwise current = previous = NONE, idle, and exactly MAIN, LOADING, SETTINGS and CUSTOM_1 registered with their names and none loaded. |
| SceneProperties.LoadGuards | Core/Src/scene_manager.c:171-178 | `load` succeeds exactly when the id is in range, no transition runs and the scene has a loader. On failure nothing changes. |
| SceneProperties.LoadEffect | Core/Src/scene_manager.c:180-206 | A successful load sets current := id and previous := old current. It unloads the old scene when loaded with an unloader, then marks the new one loaded. The calls are unload?, load, animation; no other descriptor changes. The flag stays set exactly for a positive time and a handled type. |
| SceneProperties.UnloadedEffect | Core/Src/scene_manager.c:181-186 | The unload stage sets the flag and unloads only a loaded scene that has an unloader; nothing else changes; see also lines 212-227. |
| SceneProperties.AnimatedEffect | Core/Src/scene_manager.c:194-200 | The animation stage changes only the flag and the calls; the flag stays set exactly for a positive time and a handled type. |
| SceneProperties.UnloadIdempotent | Core/Src/scene_manager.c:212-227 | Unloading twice is unloading once. |
| SceneProperties.TransitionBlocksLoads | Core/Src/scene_manager.c:115-118 | During an animated switch, `load` and `back` fail with no change; after the ready callback, loading is possible again for every registered scene; see also line 171. |
| SceneProperties.BackToggles | Core/Src/scene_manager.c:203-204 | Two `back` calls separated by the ready callback return to the original current and previous scenes; see also lines 232-239. |
| SceneProperties.BackWithoutHistory | Core/Src/scene_manager.c:234-236 | With no previous scene, `back` fails with no change. |
| SceneProperties.ReloadCurrent | Core/Src/scene_manager.c:184-191 | Reloading the loaded current scene calls its unload and then its load, and makes it its own previous scene. |
| DemoSpec.ItemIndex | Core/Src/lvgl_demo.c:363-372 | None exactly with no items. Otherwise i in [0, n) with i ≡ index (mod n), from C's truncating `%`. |
| DemoSpec.ItemLabel | Core/Src/lvgl_demo.c:363-376 | With the five items a label is always drawn. |
| DemoSpec.ItemIndexUnique | Core/Src/lvgl_demo.c:367-370 | The circular index is the only item index congruent to the page index. |
| DemoSpec.ResidueUnique | Core/Src/lvgl_demo.c:367-370 | A residue in [0, n) congruent to a is the Euclidean `a % n`. |
| DemoSpec.ItemIndexPeriodic | Core/Src/lvgl_demo.c:367-370 | Pages n apart show the same item. |
| DemoSpec.Wrapped | Core/Src/lvgl_demo.c:211-218 | The wrap loops leave x in [-660, 660], congruent to the input mod 1320, unchanged when already in range, with each bound reached only from beyond it. |
| DemoSpec.WrappedUnique | Core/Src/lvgl_demo.c:211-218 | The wrapped value is the only one with those properties. |
| DemoSpec.WrappedTurn | Core/Src/lvgl_demo.c:211-218 | One turn of either loop does not change the wrapped value. |
| DemoSpec.ShiftedWrap | Core/Src/lvgl_demo.c:211-218 | Adding or removing a period beyond the bound keeps the wrapped value. |
| DemoSpec.WrappedKeepsGrid | Core/Src/lvgl_demo.c:211-218 | Wrapping moves x by a multiple of 220. |
| DemoSpec.SizeProperties | Core/Src/lvgl_demo.c:223-239 | Sizes stay in [120, 200]. `set_x_cb` is big exactly at 0. Both callbacks give small at or beyond ±220 and agree elsewhere; see also lines 338-358. |
| DemoSpec.SizeMonotone | Core/Src/lvgl_demo.c:238 | Icons farther from the centre are no bigger; see also line 357. |
| DemoSpec.Clamp | Core/Src/lvgl_demo.c:102-105 | For a nonnegative zoom the result is in [1, 0xFFFF], and in-range zooms are kept. |
| DemoSpec.Zoom | Core/Src/lvgl_demo.c:94-107 | No zoom exactly when the image has a non-positive size; otherwise the zoom is in [1, 0xFFFF]. |
| DemoSpec.ZoomFits | Core/Src/lvgl_demo.c:99-105 | Without wrap-around the zoom is the clamp of min(w·256/iw, h·256/ih): the largest scale that fits both sides. |
| DemoSpec.ZoomUnwrapped | Core/Src/lvgl_demo.c:99-101 | Without wrap-around the 32-bit products equal the exact ones. |
| DemoSpec.MinFits | Core/Src/lvgl_demo.c:101 | The smaller quotient fits both sides, and one more does not fit one of them. |
| DemoSpec.ScrollIcon | Core/Src/lvgl_demo.c:113-172 | `ScrollIconLayout`: initial x = (i - 3)·220, only icon 3 is big, and the touch state is kept. |
| DemoSpec.DelCalls | Core/Src/lvgl_demo.c:183-187 | One animation deletion per icon, in order. |
| DemoSpec.Press | Core/Src/lvgl_demo.c:175-241 | `FirstPressRecords`: the first press deletes the animations and records the point. `DragMovesAll`: a later press moves every icon by the step, wrapped and resized. |
| DemoSpec.Release | Core/Src/lvgl_demo.c:244-285 | `ReleaseMovesAll`, `ReleaseAnimates` and `ReleaseSnapsToGrid`: the touch ends, one animation per icon, every icon moved by the snap and flick, and, with an icon right of the centre, every icon on the 220 grid. |
| DemoSpec.SetX | Core/Src/lvgl_demo.c:318-359 | `SetXWritesBack` and `SizeProperties`: x becomes the wrapped value, big exactly at 0, small at or beyond ±220. `ReleaseEndsInPlace`: the final call lands where release wrapped the icon. |
| DemoSpec.RingShift | Core/Src/lvgl_demo.c:206-218 | Moving every icon by the same amount, modulo the ring, keeps them 220 apart on the ring. |
| DemoSpec.ScrollIconLayout | Core/Src/lvgl_demo.c:150-163 | Initial x = (i - 3)·220, only icon 3 is big, the icons form the ring, and touch state and calls are kept. |
| DemoSpec.FirstPressRecords | Core/Src/lvgl_demo.c:181-193 | The first press only deletes the animations, records the point and sets `touched`. |
| DemoSpec.DragIconFacts | Core/Src/lvgl_demo.c:206-239 | A dragged icon ends at the wrapped x + d, sized square for its place. |
| DemoSpec.DragMovesAll | Core/Src/lvgl_demo.c:196-240 | A later press shifts every icon by p2.x - p1.x, wrapped into range and sized for its place. It advances p1 and keeps the ring. |
| DemoSpec.DragShifts | Core/Src/lvgl_demo.c:202-218 | A later press moves every icon, modulo the ring, by the touch point's step. |
| DemoSpec.DragSteps | Core/Src/lvgl_demo.c:202-218 | Two drag steps move every icon, modulo the ring, by the total travel of the touch point. |
| DemoSpec.StepsAddAll | Core/Src/lvgl_demo.c:209-218 | Shifts on the ring add up, icon by icon. |
| DemoSpec.StepsAdd | Core/Src/lvgl_demo.c:209-218 | Two shifts on the ring add up. |
| DemoSpec.OffsetSnaps | Core/Src/lvgl_demo.c:254-264 | For a positive x the offset makes x a multiple of 220 and lies in [-110, 110). |
| DemoSpec.SnapOffsetFirstPositive | Core/Src/lvgl_demo.c:246-267 | The offset comes from the first icon with x > 0, and is 0 when none is positive. |
| DemoSpec.ReleaseMovesAll | Core/Src/lvgl_demo.c:249 | Release ends the touch and moves every icon to wrapped(x + offset + (t/20)·220), with C's truncating division. Sizes and zooms stay and the ring is kept; see also lines 269-284. |
| DemoSpec.ReleaseAnimates | Core/Src/lvgl_demo.c:272 | Release appends one animation per icon, from its x to its unwrapped target, with duration 300 + 5·abs(t) as `uint32_t`. |
| DemoSpec.ReleaseEndsInPlace | Core/Src/lvgl_demo.c:272-283 | The animation's final `set_x_cb` puts each icon where release already wrapped it; see also lines 321-336. |
| DemoSpec.SetXWritesBack | Core/Src/lvgl_demo.c:321-336 | `set_x_cb` stores the wrapped value in the icon's x. |
| DemoSpec.ReleaseSnapsToGrid | Core/Src/lvgl_demo.c:251-283 | With an icon right of the centre, every icon ends on a multiple of 220. |
| DemoSpec.ShiftToGrid | Core/Src/lvgl_demo.c:254-274 | The first positive icon plus the shift, flick included, is a multiple of 220. |
| DemoSpec.OnGrid | Core/Src/lvgl_demo.c:274-283 | An icon that sits a whole number of distances from a gridded icon is gridded after the shift and wrap. |
| DemoSpec.DurationOfStep | Core/Src/lvgl_demo.c:272 | Duration is 300 + 5·abs(t) while no wrap-around occurs. |
| DemoSpec.FlickTruncates | Core/Src/lvgl_demo.c:272 | Steps shorter than 20 pixels add no flick, and the flick is symmetric; see also line 274. |
| DemoSpec.InterpSize | Core/Src/lvgl_demo.c:238 | The size between 200 at the centre and 120 at 220 pixels, truncated to an integer. `SizeProperties` bounds it to [120, 200] and `SizeMonotone` makes it shrink with distance. |
| DemoSpec.PressSize | Core/Src/lvgl_demo.c:223-239 | The size `pressing_cb` gives an icon at x. `SizeProperties` shows it is small at or beyond ±220 and agrees with `set_x_cb` elsewhere. |
| DemoSpec.SetXSize | Core/Src/lvgl_demo.c:339-358 | The size `set_x_cb` gives an icon at v. `SizeProperties` shows it is big exactly at 0 and small at or beyond ±220. |
| DemoSpec.ZoomRatio | Core/Src/lvgl_demo.c:99-100 | One side's 256-based ratio in `uint32_t`. `ZoomUnwrapped` equates it with the exact quotient when nothing wraps, and `ZoomFits` takes the smaller of the two. |
| DemoSpec.Resize | Core/Src/lvgl_demo.c:81-110 | The icon takes the size, and the zoom `Zoom` describes when the image has one. `Scroller.IconSetSize` is proved to compute it. |
| DemoSpec.InitialX | Core/Src/lvgl_demo.c:151 | (i - 3)·220. `ScrollIconLayout` states the layout it gives. |
| DemoSpec.InitialSize | Core/Src/lvgl_demo.c:155-163 | Big for the middle icon, small otherwise. `ScrollIconLayout` shows only icon 3 is big. |
| DemoSpec.InitialIcon | Core/Src/lvgl_demo.c:150-163 | A zeroed icon placed at `InitialX` and resized to `InitialSize`. `ScrollIconLayout` states its fields. |
| DemoSpec.DragIcon | Core/Src/lvgl_demo.c:209-239 | An icon moved by d, wrapped and resized. `DragIconFacts` gives its wrapped x and square size, and `DragMovesAll` shows a later press applies it to every icon. |
| DemoSpec.OffsetFor | Core/Src/lvgl_demo.c:257-264 | The snap correction of a positive x with C's `%`. `OffsetSnaps` shows it puts x on the 220 grid, within [-110, 110). |
| DemoSpec.SnapOffset | Core/Src/lvgl_demo.c:251-267 | The correction from the first icon right of the centre, or 0. `SnapOffsetFirstPositive` states this, and `Scroller.FindOffset` is proved to compute it. |
| DemoSpec.Duration | Core/Src/lvgl_demo.c:272 | The animation time from the last step, as `uint32_t`. `DurationOfStep` shows it is 300 + 5·abs(t) while nothing wraps. |
| DemoSpec.ReleaseShift | Core/Src/lvgl_demo.c:274 | The snap plus 220 per 20 pixels of the last step. `ReleaseMovesAll` and `ShiftToGrid` show it lands icons on the grid, and `FlickTruncates` covers the truncating division. |
| DemoSpec.ReleaseAnim | Core/Src/lvgl_demo.c:272 | The animation release starts for icon i. `ReleaseAnimates` shows one is appended per icon, from its x to its unwrapped target. |
| IconScroller.Scroller.constructor | Core/Src/lvgl_demo.c:57-63 | Six zeroed icons, untouched, no calls; see also line 177. |
| IconScroller.Scroller.WrapX | Core/Src/lvgl_demo.c:211-218 | The two loops compute `DemoSpec.Wrapped`; see also lines 276-283, 321-328. |
| IconScroller.Scroller.IconSetSize | Core/Src/lvgl_demo.c:81-110 | Only icon i changes: the size, then the clamped zoom when the image has a size. |
| IconScroller.Scroller.ScrollIcon | Core/Src/lvgl_demo.c:113-172 | The new state is `DemoSpec.ScrollIcon`. |
| IconScroller.Scroller.Pressing | Core/Src/lvgl_demo.c:175-241 | The new state is `DemoSpec.Press`. |
| IconScroller.Scroller.DeleteAnims | Core/Src/lvgl_demo.c:183-187 | Appends the six deletions; nothing else changes. |
| IconScroller.Scroller.DragAll | Core/Src/lvgl_demo.c:206-240 | Every icon becomes its dragged version. |
| IconScroller.Scroller.DragOne | Core/Src/lvgl_demo.c:209-239 | Only icon i becomes its dragged version. |
| IconScroller.Scroller.FindOffset | Core/Src/lvgl_demo.c:246-267 | Returns the snap offset of the icons without changing them. |
| IconScroller.Scroller.Released | Core/Src/lvgl_demo.c:244-285 | The new state is `DemoSpec.Release`. |
| IconScroller.Scroller.AnimateAll | Core/Src/lvgl_demo.c:269-284 | One animation per icon in order, and each x set to its wrapped target. |
| IconScroller.Scroller.SetXCb | Core/Src/lvgl_demo.c:318-359 | The new state is `DemoSpec.SetX`. |
| DemoPager.EntryWellFormed | Core/Src/lvgl_demo.c:460-466 | The entry screen is a well-formed, idle pager at index 0 whose three pages show indices -1, 0 and 1. |
| DemoPager.LabelOfIndex | Core/Src/lvgl_demo.c:363-376 | Page k shows item k mod 5 followed by "idx=k". |
| DemoPager.EntryShowsFirstItems | Core/Src/lvgl_demo.c:34-35 | The entry screen shows 页面 A idx=0, with 页面 E idx=-1 before it and 页面 B idx=1 after it; see also lines 460-466. |
| DemoPager.Browsing | Core/Src/lvgl_demo.c:460-466 | After any completed next/prev sequence, the current page shows index k = #next - #prev and item k mod 5. |
| DemoPager.PageLabel | Core/Src/lvgl_demo.c:363-376 | The label the provider draws into a filled page, or none for a blank page. `LabelOfIndex` shows page k shows item k mod 5 and "idx=k". |
| DemoPager.Entry | Core/Src/lvgl_demo.c:460-466 | The pager `lvgl_demo_entry` builds. `EntryWellFormed` and `EntryShowsFirstItems` show it is idle at index 0 with items E, A and B. |
| Rtc.MillisBounded | Core/Src/rtc.c:168-175 | Milliseconds are in [0, 999], and 0 unless sync > 0 and subsec ≤ sync. |
| Rtc.Elapsed | Core/Src/rtc.c:174 | The 32-bit product (sync - subsec)·1000. |
| Rtc.MillisBelowSecond | Core/Src/rtc.c:174 | The quotient is below 1000. |
| Rtc.ElapsedBelow | Core/Src/rtc.c:174 | The product stays below (sync + 1)·1000. |
| Rtc.MillisExact | Core/Src/rtc.c:172-175 | Without wrap-around the milliseconds are (sync - subsec)·1000/(sync + 1). |
| Rtc.TimeText | Core/Src/rtc.c:180-192 | 13 characters, with ':' at 2 and 5, '.' at 8 and NUL at 12. |
| Rtc.Snprintf | Core/Src/rtc.c:159 | `snprintf` writes min(len, n - 1) characters and a NUL, or nothing when n = 0. |
| Rtc.Written | Core/Src/rtc.c:150-198 | `WrittenOnSuccess`: the 13-character timestamp for buffers of at least 13 bytes, a lone NUL for 1..12, nothing for 0. `WrittenOnFailure`: the default text through `snprintf`. |
| Rtc.TimeTextRoundTrip | Core/Src/rtc.c:180-191 | Decoding the digits recovers hours, minutes and seconds below 100 and milliseconds below 1000. |
| Rtc.TwoDigits | Core/Src/rtc.c:180-187 | A two-digit field decodes to its value. |
| Rtc.ThreeDigits | Core/Src/rtc.c:189-191 | A three-digit field decodes to its value. |
| Rtc.WrittenOnSuccess | Core/Src/rtc.c:178-197 | With a buffer of ≥ 13, the 13-character timestamp with these fields. With 1..12 only a NUL. With 0 nothing. |
| Rtc.WrittenOnFailure | Core/Src/rtc.c:156-160 | A failed read writes "00:00:00.000", truncated to the buffer as `snprintf` does, and decodes to zeros. |
| Rtc.PrescalersGiveOneHz | Core/Src/rtc.c:87-91 | 32768/(127+1)/(255+1) = 1 and 32000/(127+1)/(249+1) = 1, both exact; see also lines 105-106. |
| Rtc.Millis | Core/Src/rtc.c:168-175 | The milliseconds of the down-counting sub-second register in `uint32_t` arithmetic, 0 off the counter's range. `MillisBounded` keeps them in [0, 999] and `MillisExact` gives the exact formula when nothing wraps. |
| Rtc.Prescaled | Core/Src/rtc.c:87-91 | The clock left after the asynchronous and synchronous dividers. `PrescalersGiveOneHz` and `Clock.Init` show that both prescaler choices give exactly 1 Hz. |
| Rtc.OscillatorHz | Core/Src/rtc.c:102-106 | 32768 Hz for LSE and 32000 Hz for LSI, the frequencies the prescalers are chosen for. `Clock.Init` applies it to the source picked by `MspInit`. |
| Rtc.Digit | Core/Src/rtc.c:180-191 | The character `'0' + d`. `TwoDigits` and `ThreeDigits` show that a field written with it decodes back to its value. |
| Rtc.DecodeTime | Core/Src/rtc.c:180-191 | Reads hours, minutes, seconds and milliseconds back from the digit positions. `TimeTextRoundTrip` proves it inverts `TimeText`. |
| Rtc.Clock.constructor | Core/Src/rtc.c:14 | The clock source starts as LSI (0). |
| Rtc.Clock.MspInit | Core/Src/rtc.c:19-72 | The source is LSE exactly when the oscillator starts, else LSI. |
| Rtc.Clock.Init | Core/Src/rtc.c:77-113 | Async 127; sync 255 on LSE and 249 on LSI; the chosen prescalers give 1 Hz. |
| Rtc.Clock.GetClockSource | Core/Src/rtc.c:204-207 | Returns the source, which is 0 or 1. |
| Rtc.Clock.GetCurrentTime | Core/Src/rtc.c:150-198 | The buffer holds what `Written` describes, followed by its old contents. |
| Rtc.Clock.FormatTime | Core/Src/rtc.c:178-192 | The first 13 bytes are the timestamp text, the rest unchanged. |
| Rtc.Clock.WriteText | Core/Src/rtc.c:159 | The buffer starts with the text, the rest unchanged; see also line 196. |
| Log.LastIndexOf | Core/Src/log.c:74 | `strrchr`: none exactly when the character is absent, otherwise its last position; see also line 76. |
| Log.Basename | Core/Src/log.c:74-84 | The suffix after the last '/'; with no '/', after the last '\\'; with neither, the whole path. |
| Log.NatDigits | Core/Src/log.c:89 | A nonempty string of decimal digits. |
| Log.LevelsOrdered | Core/Inc/log.h:15-24 | DEBUG < INFO < WARNING < ERROR < NONE, and the letter table has one entry per emitting level. |
| Log.LevelLetterRoundTrip | Core/Src/log.c:13-18 | Levels 0..3 print as D, I, W, E, and the letter gives the level back; see also line 89. |
| Log.OutputIffEmits | Core/Src/log.c:61-99 | `log_output` prints exactly for a level in DEBUG..ERROR and not below the current level. |
| Log.MacroGating | Core/Inc/log.h:60-66 | Each macro prints exactly when its level ≥ the current level, the same as `log_output`. At level NONE none prints. |
| Log.LogLineShape | Core/Src/log.c:87-98 | A line is "[time][L][file:line][func] " then the message then CRLF, with L the letter of the level. |
| Log.LineShape | Core/Src/log.c:89-98 | The same shape for any location field that starts with '['. |
| Log.NatDigitsRoundTrip | Core/Src/log.c:89 | The printed line number parses back to itself. |
| Log.DecimalRoundTrip | Core/Src/log.c:89 | A printed signed number parses back to itself. |
| Log.TimestampComplete | Core/Src/log.c:46-50 | The 16-byte buffer receives the complete 13-byte timestamp; the time field is 12 characters without NUL, the default on a failed read; see also lines 87-88. |
| Log.LevelLetter | Core/Src/log.c:13-18 | The letter `LOG_LEVEL_STR` holds for a level. `LevelLetterRoundTrip` shows levels 0..3 print as D, I, W and E. |
| Log.LevelOfLetter | Core/Src/log.c:13-18 | The level a letter stands for. `LevelLetterRoundTrip` proves it inverts `LevelLetter`. |
| Log.Decimal | Core/Src/log.c:89 | `%d` of a signed number. `DecimalRoundTrip` proves it parses back to itself. |
| Log.Emits | Core/Src/log.c:64-71 | Both guards of `log_output`. `OutputIffEmits` shows a line is printed exactly when they hold. |
| Log.Head | Core/Src/log.c:89 | The bracketed time and level letter. `LogLineShape` shows it opens every line. |
| Log.Location | Core/Src/log.c:89 | The bracketed file name, line and function, then a blank. `LogLineShape` and `LineShape` place it after the head. |
| Log.LogLine | Core/Src/log.c:86-98 | The printed line. `LogLineShape` shows it is the prefix, the message and CRLF. |
| Log.Output | Core/Src/log.c:61-99 | What `log_output` prints. `OutputIffEmits` shows it is empty exactly when a guard fails, and `Logger.LogOutput` is proved to append it. |
| Log.MacroOutput | Core/Inc/log.h:60-66 | What a `LOG_*` macro prints. `MacroGating` shows it is printed exactly when the level is at least the current one, and never at NONE. |
| Log.Timestamp | Core/Src/log.c:87-88 | The time text read into the 16-byte buffer. `TimestampComplete` shows it holds the whole 12-character time. |
| Log.Logger.constructor | Core/Src/log.c:21 | The level starts at INFO with nothing printed. |
| Log.Logger.SetLevel | Core/Src/log.c:27-30 | Sets the level, prints nothing. |
| Log.Logger.GetLevel | Core/Src/log.c:36-39 | Returns the level last set. |
| Log.Logger.LogOutput | Core/Src/log.c:61-99 | Appends `Output` for the current level and the RTC timestamp; the level is unchanged. |
| Log.Logger.GetTimestamp | Core/Src/log.c:46-50 | Returns the timestamp read through the RTC into a 16-byte buffer. |
| Log.Logger.Macro | Core/Inc/log.h:60-66 | Appends `MacroOutput`; the level is unchanged. |
| UartRxSpec.Start | Core/Src/uart_rx_task.c:34-41 | The length becomes 0; buffer and ready flag are kept. |
| UartRxSpec.RxByte | Core/Src/uart_rx_task.c:48-71 | Other instances, or a full buffer (255), change nothing. Otherwise the byte goes at buffer[len] and len grows by one. Ready and the terminating 0 come exactly on '\n', '\r' or len reaching 255. |
| UartRxSpec.Feed | Core/Src/uart_rx_task.c:48-71 | `FeedStoresPrefix`: after a reset, the first min(n, 255) bytes are stored in order. `FeedReady`: a line end or a full buffer makes the line ready. |
| UartRxSpec.Hex2 | Core/Src/uart_rx_task.c:116 | Two characters per byte. |
| UartRxSpec.HexDigit | Core/Src/uart_rx_task.c:116 | An upper-case hex digit, as `%02X` prints it. `Hex2RoundTrip` shows two of them give the byte back. |
| UartRxSpec.HexDump | Core/Src/uart_rx_task.c:113-116 | Three characters per byte. |
| UartRxSpec.TaskStep | Core/Src/uart_rx_task.c:101-125 | Not ready: no change. Ready: clear ready, echo buffer[0..len) and reset the length. |
| UartRxSpec.StoreStep | Core/Src/uart_rx_task.c:53-55 | Storing a byte extends the stored prefix by that byte. |
| UartRxSpec.FeedStoresPrefix | Core/Src/uart_rx_task.c:53-55 | After a reset, the stored bytes are the first min(n, 255) received, in order. |
| UartRxSpec.FeedReady | Core/Src/uart_rx_task.c:58-65 | A stored line end, or a full buffer, makes the line ready. |
| UartRxSpec.LenBounded | Core/Src/uart_rx_task.c:14 | The length never exceeds 255, so the terminator index stays inside the 256-byte buffer; see also line 53. |
| UartRxSpec.EchoAfterLine | Core/Src/uart_rx_task.c:48-125 | A received line is echoed and reported as stored. Afterwards the receiver is empty and the next task step does nothing. |
| UartRxSpec.Hex2RoundTrip | Core/Src/uart_rx_task.c:116 | The two hex digits give the byte back. |
| UartRxSpec.HexDumpAt | Core/Src/uart_rx_task.c:113-116 | Byte k is printed at 3k as two hex digits and a space. |
| UartRxSpec.IsLineEnd | Core/Src/uart_rx_task.c:58 | '\n' or '\r'. `FeedReady` shows a stored line end makes the line ready. |
| UartRxSpec.Report | Core/Src/uart_rx_task.c:114-118 | "Received n bytes: ", the hex dump and CRLF. `HexDumpAt` places byte k at 3k, and `EchoAfterLine` shows a ready line is reported as stored. |
| UartRxTask.Receiver.constructor | Core/Src/uart_rx_task.c:17-19 | Empty and not ready. |
| UartRxTask.Receiver.StartReceive | Core/Src/uart_rx_task.c:34-41 | The new state is `Start`. |
| UartRxTask.Receiver.RxComplete | Core/Src/uart_rx_task.c:48-71 | The new state is `RxByte`. |
| UartRxTask.Receiver.TaskStep | Core/Src/uart_rx_task.c:101-125 | The state, the transmitted bytes and the console output follow `UartRxSpec.TaskStep`. |
| UartRxTask.Receiver.PrintHex | Core/Src/uart_rx_task.c:112-116 | Appends the hex dump of the first n bytes. |
| SdCard.TotalBytesFits | Core/Src/main.c:192 | The 64-bit product of two 32-bit values does not overflow. |
| SdCard.CardMBExact | Core/Src/main.c:193 | For blocks of at most 1 MiB, totalMB is exactly totalBytes / 2^20, unwrapped. |
| SdCard.GbSplit | Core/Src/main.c:194-195 | GB·1024 + MB mod 1024 = MB; the fraction is in [0, 99], the floor of hundredths. |
| SdCard.SectorsToMBIsBytes | Core/Src/main.c:217-218 | /2048 is bytes / 2^20 for 512-byte sectors. |
| SdCard.SectorCountsExact | Core/Src/main.c:213-214 | Without wrap-around the sector counts are exact, and free ≤ total when the free clusters are at most the cluster count. |
| SdCard.UsageDigits | Core/Src/main.c:219-225 | For 0 < total and free ≤ total: used = total - free, percent ≤ 100, tenth digit in [0, 9]. Together they are used·1000/total. |
| SdCard.TenthsAgree | Core/Src/main.c:224-225 | The per-mille figure divided by 10 is the percentage. |
| SdCard.TotalBytes | Core/Src/main.c:192 | The 64-bit card size. `TotalBytesFits` shows it cannot overflow. |
| SdCard.CardMB | Core/Src/main.c:193 | The size in MiB as `uint32_t`. `CardMBExact` shows it is exact, with no wrap, for blocks of at most 1 MiB. |
| SdCard.GbWhole | Core/Src/main.c:194 | The whole gigabytes. `GbSplit` shows GB·1024 + MB mod 1024 = MB. |
| SdCard.GbHundredths | Core/Src/main.c:195 | The hundredths of a gigabyte. `GbSplit` keeps them in [0, 99] as the floor. |
| SdCard.TotalSectors | Core/Src/main.c:213 | (n_fatent - 2)·csize in `DWORD`. `SectorCountsExact` shows it is exact without wrap. |
| SdCard.FreeSectors | Core/Src/main.c:214 | fre_clust·csize in `DWORD`. `SectorCountsExact` shows it is exact and at most the total. |
| SdCard.SectorsToMB | Core/Src/main.c:217-218 | sect/2048. `SectorsToMBIsBytes` shows it is the MiB of 512-byte sectors. |
| SdCard.UsedMB | Core/Src/main.c:219 | totalMB - freeMB in `uint32_t`. `UsageDigits` shows it is the exact difference when free ≤ total. |
| SdCard.UsagePercent | Core/Src/main.c:224 | The whole percent. `UsageDigits` bounds it by 100, and `TenthsAgree` matches it with the per-mille figure. |
| SdCard.UsageTenth | Core/Src/main.c:225 | The tenth-of-a-percent digit. `UsageDigits` keeps it in [0, 9] and shows percent·10 + tenth is the per-mille figure. |
| CInt.Wrap32 | Core/Src/main.c:193 | In [0, 2^32), congruent to the input, the identity on that range. |
| CInt.CDiv | Core/Src/lvgl_demo.c:272 | C's truncating division: sign of the quotient and agreement with `/` on nonnegative operands. |
| CInt.CRem | Core/Src/lvgl_demo.c:257 | C's `%`: a = b·q + r, with the remainder taking the dividend's sign and smaller in magnitude than the divisor; see also line 367. |
| CInt.CDivSpec | Core/Src/lvgl_demo.c:272 | The quotient's magnitude is abs(a) / abs(b) and the remainder that of C99. |

## Left out

- LVGL itself is not modelled:
  - object creation, styling and screens (`lv_obj_*`, `lv_label_*`, `lv_img_*`, `lv_obj_center`);
  - the scene load/unload functions and built-in scenes;
  - `Core/Src/scene_examples.c` and `Core/Src/scene_manager_test.c`.
  
  They are UI calls with no state of this model. The provider, the scene callbacks and the animation starts are recorded as calls.
- The animation engine is not modelled: timing and ease-out paths. Animations land at their end values in one step. A second jump cannot interleave with the intermediate frames of a running one; that is enough only because the busy flag blocks it.
- The LVGL NULL guards are not modelled: `icon_set_size` on a missing object, and a missing image source descriptor. Every icon has an object and an image, and the image's size is a constructor parameter.
- DemoSpec.InterpSize: the icon size is computed in `float` and then truncated. The model uses exact integer arithmetic, which may differ from the float result by one pixel.
- The `lv_coord_t` and `int32_t` widths are not modelled. This covers pointer steps, icon x, `curr_index`, the pager's `dx` and `t_offset_x * 5`. Icon x is unbounded and wraps only through the modelled loops. `curr_index` is unbounded, so its 32-bit overflow after 2^31 jumps is not modelled.
- `scr_w` in `scrollicon` is written but never used, and is left out.
- `btn_prev_cb` and `btn_next_cb` only call the pager's `prev`/`next`, which are modelled. The buttons themselves are not created in `lvgl_demo_entry`.
- FreeRTOS is not modelled: task creation, `osDelay`, `lv_timer_handler`, and the interleaving of the UART interrupt with the receive task. Each callback and each task iteration is one sequential step.
- `printf`/`vprintf` formatting of arbitrary messages is not modelled. A log line's message is a given string. The receiver's fixed report, `"Received %d bytes: "` plus `%02X `, is modelled.
- Error paths that end in `Error_Handler` are not modelled. The HAL calls of `HAL_RTC_MspInit` and `MX_RTC_Init` are replaced by a parameter saying whether LSE starts. Setting the default date and time on first power-up is left out.
- `HAL_UART_ErrorCallback` only re-arms the interrupt reception, which has no state in the model.
- Only one memory bank is modelled: the source's `memx` indexes a table with one entry.
- Malloc.Bank.Valid: table entries are `MT_TYPE`, which `my_mem_init` describes as `uint16_t` or `uint32_t`; the model assumes the narrower `uint16_t` and stores entries as naturals. This is faithful only for tables shorter than 65536 entries, where no run length can exceed 16 bits, so `Bank` requires fewer entries. `MallocSpec.MallocEntriesFit` shows the stored counts then fit. A larger table, where C would store a run length modulo 2^16, is not modelled.
- Malloc.Bank.MemSize: the source checks offsets against its own constant `memsize` (`MEM3_MAX_SIZE`). The model takes the table length times the block size instead. The two agree when the pool size is a multiple of the block size, which the model assumes; the header that defines the sizes is not part of this model.
- Malloc.Bank.ClearFrom: the C clearing loop of `my_mem_free` does not stop at the end of the table. Freeing an interior pointer of the topmost allocation would write past the map. The model stops at the table's end.
- Malloc.Bank.MyRealloc: with a NULL old pointer the source copies from address 0, which is outside the pool. The model leaves the pool unchanged. The requires asks that the `size` bytes read from a non-NULL old pointer lie inside the pool, since the source reads them unconditionally.
- SdCard.UsageDigits: the source divides by `totalMB` without checking it. Zero is a division by zero, excluded by the requires. That `free ≤ total` is likewise unchecked.
- The float capacity in GB (`Core/Src/main.c:198`) is not modelled. Neither are the SD/FatFs calls that supply the block and cluster counts: they are parameters. The GB log line at `Core/Src/main.c:195` is not modelled either: it sits inside a comment, so it is never compiled.

## Notes on the source

- `drag_start` has no busy guard (`Core/Src/cyclic_pager.c:98-105`), unlike `do_jump` and `drag_continue`. A press during a jump therefore starts a drag (`PagerProperties.PressWhileBusyIsNotRejected`). The model follows the code here.
- The rollback branch of `drag_release` returns after `drag_active` is already cleared (`Core/Src/cyclic_pager.c:121,134`). A short drag released while busy therefore only ends the drag (`PagerSpec.DragRelease`).
