# Verified model of keyboard-firmware cores

A Dafny model of the stateful cores of a QMK-style keyboard firmware, with proofs of what those
cores keep over whole runs. `dafny verify dfyconfig.toml` checks everything.

Every core that changes state in place is a class whose methods follow the source loop by loop and
branch by branch. Each method is proved to compute a step function on values; the lemmas are about
those step functions, and so hold for every run of the class.

| files | what they model | main results |
|---|---|---|
| `TappingModel`, `ActionTapping`, `TappingOrder`, `TappingDrain`, `TappingRepeats`, `TappingProgress`, `TappingEvidence`, `TappingRules`, `TappingTaps` | tap/hold resolution in front of an 8-slot ring | no event lost, and exactly when one is sent twice; per-key order, with the exact condition for each step and for records being stranded; progress; the evidence behind every tap or hold; what waits for an undecided press and what goes out at once; how taps are counted |
| `DynamicMacro` | two macros recorded from both ends of one buffer | record/play round trip, isolation, both macros always fit |
| `DeferredExec`, `DeferredEffects`, `DeferredTiming` | timers with 8-bit tokens and 32-bit times | when a request succeeds and what it does, tokens stay distinct, cancelled executions stay silent, no drift modulo 2^32; against an unbounded clock, exactly when calls can be early and how late an entry may be and still be called |
| `ActionLayer` | layer resolution and the bit-sliced layer cache | which layer decides a key; the cache is a map; a release repeats its press; when cells are shared |
| `OledModel`, `OledDisplay`, `OledPicture`, `OledTables`, `Oled` | frame buffer with dirty blocks | what is drawn, as text and as pixels; display coherence with failing transmissions and for exactly which rotation tables it holds, convergence, the 90 degree rotation |
| `ViaModel`, `Via` | EEPROM settings behind a magic number | crash consistency at every byte write and over repeated attempts |
| `SendString`, `StoredMacros` | the command-string interpreter and stored macros | encode/interpret round trip; storing and performing macros in the EEPROM |
| `Ps2` | the PS/2 receive interrupt, its ring, and what the host sends | decoding of every stream of bits, good or bad; the host's frame decodes to its byte |
| `MatrixScan` | ghost detection and the key-event emitter | event log replays the matrix, strict alternation, convergence |
| `Encoder` | quadrature decoding, split-board synchronisation | conservation of shaft displacement, with exact bounds |
| `EepromI2c` | page-wise EEPROM writes to parts with one bank or several | where every byte of every request lands; when that is one flat copy, and when a request ends at all |
| `Crc8` | the bitwise CRC-8 | every burst of up to eight bits changes the checksum; nine may not |
| `Machine`, `Arithmetic`, `Bits`, `Sets`, `KeyRecords` | widths, products and remainders, binary digits, set sizes, key records | |

## How to read it

Tap/hold. `Line` is what has been dispatched, then the undecided press, then the waiting events.
The dispatch log names, for each deferred press, the record that settled it and the term in force.
Whether a key is a tap key, whether a released modifier is retained, whether processing an
interrupted tap takes it back, and the tapping term are arbitrary per call and may depend on
everything dispatched before. An overflow clears everything;
the events it throws away are accounted for in `Dropped`. `ClearKeyboard` lists them.

Widths are explicit: `u8`, `u16`, `u32` are subset types, and every place where the source wraps is
written with `Wrap8`, `Wrap16`, `Wrap32` or their signed forms. Bitwise operations on numbers are
defined on binary digits (`Bits`), so that what they do to each bit is proved and not assumed. Where
the operands of an or cannot overlap it is written as a sum. `crc_t` may be wider than a byte, but
bits above the eighth never come back, so a byte is what is modelled, as eight booleans.

## What the proofs show about the code

- Tap/hold resolution keeps each key's events in order only while they arrive in turn (`InTurn`). An
  event can be out of turn only when records are stranded, that is, wait with no tap key undecided
  (`StrandedRuns`). The drain strands records if and only if the last record it examines times out
  the undecided press, settles it as a tap, or closes the window of a released key
  (`StrandsExactly`). All three happen: `OutOfTurnReorders` (where the release of the stranded key is
  then dispatched before its press), `TapStrandsRun` and `ClosingStrands`.
- A press can be dispatched twice: processing an interrupted mod-tap resets its tap count
  (quantum/action.c:416), so the press that has just gone out as a tap is undecided again
  (`TappedTwice`). `DispatchedTwice` shows that this is the only way, and counts how often.
- While a tap key is undecided nothing is dispatched but early releases of other keys that are not
  retained (`UndecidedWaits`). Whether a waiting release is retained is asked again in every call, so
  a retained one still goes ahead if the answer changes (`RetainedAskedAgain`); while the answer stays
  the same it waits for the decision (`RetainedWaits`).
- In a string for `send_string` the prefix and a code that is not known are skipped together, even if
  that code is the null that should end the string (`UnknownSkipped`).
- The comment at quantum/dynamic_keymap.c:233-234 says that sending a macro cannot go past the end
  of the buffer. It does when the buffer ends in a null and holds exactly `id` nulls, and only then
  (`OverrunOccurs`, `NothingLeft`).
- The pulse count of an encoder is a signed byte: with a resolution above 127 it overflows before a
  detent is complete, and conservation fails; at 127 or below it always holds.
- A deferred execution with a free slot always gets a token if the table has at most 255 slots.
  With 256 slots, 255 requests leave one slot free and no token for it (`NoTokenLeft`).
- Key numbers in the layer cache are eight bits: two keys share a cell as soon as the matrix has
  more than 256 keys.
- A deferred call can be early. Delays are 32-bit, but the comparison is signed: an entry half the
  range of the timer (2^31 ms) ahead, or more, is taken for overdue, and a pass that finds it so calls
  it (`LongDelayEarly`). With all delays below that no call is ever early (`NeverEarlyExactly`). In the other direction an entry
  more than 2^31 ms overdue is not called until the whole range has gone by (`CalledExactly`); late
  calls alone can bring an entry there (`OverdueMissed`).
- With the rotation tables noted for a 32-bit block mask, drivers/oled/oled_driver.h:62-64, every block
  is sent with the bytes of the next one, and the last with what follows the buffer (`NotedTables`,
  `NotedByte`). A rotated display stays coherent over all runs if and only if every source group lies
  in its own block (`CoherentExactly`).
- The paged EEPROM writer takes the device address from the start of the request. On a part that
  keeps part of the location there, a request across the end of a bank puts the rest of its bytes
  into the bank it started in; it is one flat copy if and only if it stays in one bank
  (`FlatExactly`, `CrossingLands`).
- Its packet loop counts in eight bits against an `int` length, and ends if and only if the
  transmission is shorter than 256 bytes (`LoopEndsExactly`). So a request ends exactly under the
  condition of `EndsExactly`; on 256-byte pages nothing of an aligned page is ever sent
  (`FullPageHangs`). The model stops there and says so in its result.

## Model

| member | source | states |
|---|---|---|
| ActionTapping.TapResolver.ActionTappingProcess | quantum/action_tapping.c:79-114 | one call computes `Step`: decide the event or queue it, clear everything on overflow, then drain the ring |
| ActionTapping.TapResolver.EnqueueOrClear | quantum/action_tapping.c:87-93 | a record that does not fit clears ring and tapping key and loses exactly the pending press, the waiting records and itself |
| ActionTapping.TapResolver.ProcessWaitingBuffer | quantum/action_tapping.c:100-110 | the drain loop computes `Drain`: records leave from the oldest on until one must go on waiting, as amended |
| ActionTapping.TapResolver.ProcessTapping | quantum/action_tapping.c:122-446 | the decision tree computes `ProcessTapping` for the new record and for a record inside the ring |
| ActionTapping.TapResolver.ProcessRecord | quantum/action_tapping.c:442 | a real event is appended to the dispatch log, an empty one is not |
| ActionTapping.TapResolver.WaitingBufferEnq | quantum/action_tapping.c:452-468 | appends the record unless seven records wait; an empty event is accepted and changes nothing |
| ActionTapping.TapResolver.WaitingBufferClear | quantum/action_tapping.c:474-477 | nothing waits |
| ActionTapping.TapResolver.WaitingBufferTyped | quantum/action_tapping.c:483-490 | true exactly if a waiting record of the key has the opposite polarity |
| ActionTapping.TapResolver.WaitingBufferScanTap | quantum/action_tapping.c:507-526 | the first waiting release of the tapping key within the term settles it as a tap and is marked |
| TappingOrder.ProcessTappingKeeps | quantum/action_tapping.c:122-446 | deciding one record appends its event to what was dispatched or pending, lets it overtake a pending press of another key, or leaves everything in place; the waiting events stay as they are |
| TappingOrder.DrainKeeps | quantum/action_tapping.c:100-110 | draining keeps the multiset of events and, per key, their order |
| TappingOrder.Conservation | quantum/action_tapping.c:79-114 | over every run: events dispatched for good (made-up releases and taps taken back apart), the undecided press, the waiting records and those dropped by overflows are exactly the real events received |
| ActionTapping.TapResolver.ProcessTappingKey | quantum/action.c:406-417 | a press dispatched as a tap stays one, or, interrupted and taken back, is undecided again |
| TappingRepeats.DispatchedTwice | quantum/action.c:406-417 | over every run each event is dispatched, undecided, waiting or dropped once for each time received and once more for each time its tap was taken back; more often than received if and only if that happened |
| TappingRepeats.TappedTwice | quantum/action.c:410-417 | a run in which the press of an interrupted tap key goes out as a tap and again as a hold |
| TappingOrder.StepOrder | quantum/action_tapping.c:79-114 | one step without overflow: the event joins its key in arrival order if and only if it arrives in turn; other keys are never disturbed |
| TappingOrder.PerKeyOrder | quantum/action_tapping.c:79-446 | over every run without overflow in which keys alternate and events arrive in turn, each key has its events dispatched in arrival order |
| TappingOrder.OutOfTurnReorders | quantum/action_tapping.c:319-328 | a concrete run in which a release that arrives out of turn is dispatched ahead of its own press |
| TappingDrain.StrandsExactly | quantum/action_tapping.c:100-110 | the drain ends with records waiting and no tap key undecided if and only if the last record it examines times out the undecided press, makes it a tap, or closes the window of a released key |
| TappingDrain.StrandedRuns | quantum/action_tapping.c:79-114 | after every run records are stranded if and only if the last drain stopped so, and only then can an event be out of turn |
| TappingDrain.ClosingStrands | quantum/action_tapping.c:421-430 | a run in which the window of a key tapped inside another closes on a buffered press and strands it |
| TappingDrain.TapStrandsRun | quantum/action_tapping.c:399-401 | a run in which an interrupted second tap starts without a scan of the ring, the drain finds its release, and a press is stranded |
| TappingProgress.TickDecreases | quantum/action_tapping.c:96-110 | a late tick strictly decreases the measure made of the ring length and the kind of tapping key |
| TappingProgress.Progress | quantum/action_tapping.c:96-110 | from any state at most twice as many ticks as records wait reach a state with an empty ring or an undecided tap key |
| TappingProgress.Flush | quantum/action_tapping.c:319-328 | late ticks, at most one more than that, empty the ring and decide the tap key |
| TappingProgress.Delivery | quantum/action_tapping.c:79-446 | after any run enough late ticks dispatch exactly the events received and not dropped |
| TappingEvidence.TapEvidence | quantum/action_tapping.c:142-157 | over every run a deferred press goes out as a tap only on its own release within the term, as a hold only on a record at or past it, a tap is taken back only if interrupted, a direct press never has count 1, a made-up release follows two taps or more, and a released tapping key has a count above 0 |
| TappingRules.UndecidedWaits | quantum/action_tapping.c:142-276 | over every run from an undecided press: before the entry that decides it only releases of other keys are dispatched that the surroundings, asked at that point, do not retain; until then the press stays undecided |
| TappingRules.RetainedWaits | quantum/action_tapping.c:238-252 | over every run in which the surroundings go on retaining a release, no dispatch of it precedes the entry that decides the undecided press |
| TappingRules.ReleasedAtOnce | quantum/action_tapping.c:238-256 | the early release of another key of which no press waits is the first entry of its call if and only if it is not retained |
| TappingRules.RetainedAskedAgain | quantum/action_tapping.c:100-110 | every call asks again about the oldest waiting release, and dispatches it if and only if it is no longer retained |
| TappingRules.DecidedAtOnce | quantum/action_tapping.c:143-157 | the own release within the term makes the press a tap in the same call, and a record past the term a hold |
| TappingRules.PressInterrupts | quantum/action_tapping.c:257-261 | over every run after a press within the term, the entry that decides the undecided press is marked as interrupted |
| TappingRules.Overflows | quantum/action_tapping.c:87-93 | events are thrown away if and only if one arrives that has to wait and seven wait already |
| TappingTaps.TapCounts | quantum/action_tapping.c:386-396 | over every run a tap count above one is the number of consecutive taps of the key, capped at 15, and a press sent at once with a count comes with no press since the last release of its key |
| TappingTaps.QuickTaps | quantum/action_tapping.c:142-396 | any number of quick taps of one key: the first press waits for its release, then all are dispatched one by one with their numbers, up to 15 |
| TappingTaps.OtherAtOnce | quantum/action_tapping.c:295-316 | with no press undecided, an event of another key goes out at once if and only if it is not the press of a tap key |
| TappingTaps.ReleaseAtOnce | quantum/action_tapping.c:281-289 | the release of a tapped key goes out at once with the tap of its press; with nothing waiting, the window for a further tap opens if and only if it comes within the term |
| TappingTaps.FurtherTap | quantum/action_tapping.c:378-401 | a press in the window of a tapped key goes out at once with the next count, up to 15, if and only if the key has not been interrupted |
| TappingTaps.NewTapReleases | quantum/action_tapping.c:290-304 | another tap key pressed while a tapped one is held makes up a release if and only if that one was tapped more than once |
| TappingTaps.OnlyPressesInterrupt | quantum/action_tapping.c:257-261 | over every run of releases and ticks nothing is dispatched as interrupted |
| TappingTaps.RolledTap | quantum/action_tapping.c:507-526 | the release of a key tapped inside the ring goes out as that of a tap although another tap key is undecided by then |
| DynamicMacro.MacroRecorder.ProcessRecordDynamicMacro | quantum/dynamic_macro.h:154-260 | computes `Step` on the two macros as sequences, what it sends, and whether the key goes on; every pointer stays in the buffer |
| DynamicMacro.MacroRecorder.RecordStart | quantum/dynamic_macro.h:60-68 | the pointer is at the start of the slot, keys and layers are cleared |
| DynamicMacro.MacroRecorder.Play | quantum/dynamic_macro.h:77-93 | entry by entry: keys and layers cleared, the records from start to end in the given direction, keys cleared; restores the layers whatever the keys did to them |
| DynamicMacro.MacroRecorder.RecordKey | quantum/dynamic_macro.h:104-122 | adds the record unless it is a leading release or the other macro is reached; the other macro stays as it is |
| DynamicMacro.MacroRecorder.RecordEnd | quantum/dynamic_macro.h:128-142 | the saved macro is the recorded one with its trailing presses trimmed |
| MacroModel.RunSound | quantum/dynamic_macro.h:154-260 | over every run the two macros together fit the buffer, and a saved macro is empty or starts with a press and ends with a release |
| MacroModel.RecordingAccumulates | quantum/dynamic_macro.h:244-254 | a recording holds the records offered, leading releases dropped, cut off at the other macro |
| MacroModel.Isolation | quantum/dynamic_macro.h:154-260 | nothing but recording a slot changes what it plays, over every run |
| MacroModel.RoundTrip | quantum/dynamic_macro.h:154-260 | recording, stopping and, after any run that does not record the slot, playing sends, position by position, two clears, what was recorded (leading releases dropped, cut off at the other macro, trailing presses trimmed) in the order it was recorded, and a clear |
| MacroModel.KeysGoOn | quantum/dynamic_macro.h:215-257 | a key goes on to be processed as usual exactly if it is recorded or, outside a recording, if it makes the keyboard do nothing here |
| MacroModel.LeadingDropped | quantum/dynamic_macro.h:105-109 | what is left of a recording begins with a press, and only releases are gone |
| DeferredExec.Scheduler.TokenCanBeUsed | quantum/deferred_exec.c:18-28 | true exactly for a token that is not 0 and in no entry |
| DeferredExec.Scheduler.AllocateToken | quantum/deferred_exec.c:30-40 | at most once round the 256 values: the result is the first usable token after the current one, or 0 if there is none at all |
| DeferredExec.Scheduler.DeferExec | quantum/deferred_exec.c:46-73 | claims the first free slot with that token, due after the delay modulo 2^32; nothing changes if the request is malformed or the table full |
| DeferredExec.Scheduler.ExtendDeferredExec | quantum/deferred_exec.c:75-93 | moves the trigger of the live token and of nothing else; succeeds exactly for a live token and a delay |
| DeferredExec.Scheduler.CancelDeferredExec | quantum/deferred_exec.c:95-116 | frees the entry of the live token and no other; succeeds exactly for a live token |
| DeferredExec.Scheduler.DeferredExecTask | quantum/deferred_exec.c:118-151 | at most once a millisecond, each due entry is called once in table order, then moved by its answer or freed |
| DeferredModel.SomeTokenUsable | quantum/deferred_exec.c:30-40 | pigeonhole: a free slot among at most 255 leaves a token |
| DeferredModel.NoTokenLeft | quantum/deferred_exec.c:54-60 | 255 requests on an empty table of 256 slots leave one slot free and no token, and the next request only moves the token counter |
| DeferredModel.DeferSucceeds | quantum/deferred_exec.c:46-73 | a request succeeds if and only if it is well formed, a slot is free and a token is unused; up to 255 slots the last is implied |
| DeferredModel.TokensDistinct | quantum/deferred_exec.c:30-73 | over every run live tokens are pairwise distinct, whatever requests on other tables do to the shared token counter |
| DeferredModel.RunDueOne | quantum/deferred_exec.c:126-149 | running the due entries calls an entry at most once, exactly if it is due, and leaves the others alone |
| DeferredModel.Cadence | quantum/deferred_exec.c:118-148 | no drift: over every run that neither extends nor cancels an entry, the trigger of each of its calls is the first one moved on by the delays asked for since, modulo 2^32, and is past by signed comparison |
| DeferredModel.KthTrigger | quantum/deferred_exec.c:135-140 | the k-th trigger in closed form, however late the entry is run |
| DeferredEffects.DeferPlaces | quantum/deferred_exec.c:46-73 | a granted request takes the first free slot for an unused token, due after the delay; a refused one leaves the table alone |
| DeferredEffects.ExtendMoves | quantum/deferred_exec.c:75-93 | extending moves the trigger of the live token to the delay from now and nothing else |
| DeferredEffects.ExtendedCadence | quantum/deferred_exec.c:75-93 | over every run that leaves the token alone afterwards, its calls keep time from the new trigger on |
| DeferredEffects.CancelFrees | quantum/deferred_exec.c:95-116 | cancelling frees the slot of the live token and leaves every other entry as it was; no entry holds the token any more |
| DeferredEffects.CancelledSilent | quantum/deferred_exec.c:95-116 | over every run after a cancellation, until its token is given to a new request, there is no further call to it |
| DeferredEffects.EndedSilent | quantum/deferred_exec.c:135-147 | a due entry is called once and moved by the answer; after the answer 0 it is never called again until its token is given to a new request |
| DeferredEffects.PassInOrder | quantum/deferred_exec.c:118-151 | the calls of a pass are in table order, each delay being what the callback answered at that point; a second pass in one millisecond does nothing |
| DeferredTiming.SameRun | quantum/deferred_exec.c:46-151 | keeping unbounded due and call times beside the scheduler does not change what it does |
| DeferredTiming.ReachedExactly | quantum/deferred_exec.c:130 | the signed comparison takes an entry for due exactly if it is overdue by at most 2^31 ms, modulo 2^32 |
| DeferredTiming.ShortDelaysOnTime | quantum/deferred_exec.c:46-151 | over every run with all delays below 2^31 ms, asked for by callers or callbacks, every call in the log is made at or after the time it is due |
| DeferredTiming.LongDelayEarly | quantum/deferred_exec.c:64 | any delay of 2^31 ms or more: a pass in the millisecond it was asked for calls the entry, that much too early |
| DeferredTiming.NeverEarlyExactly | quantum/deferred_exec.c:122-132 | no run with delays up to a bound calls an entry early if and only if the bound is below 2^31 ms |
| DeferredTiming.CalledExactly | quantum/deferred_exec.c:118-149 | after every such run, a task less than 2^31 ms after the last pass calls an entry, once, if and only if it is due and at most 2^31 ms overdue |
| DeferredTiming.OverdueMissed | quantum/deferred_exec.c:118-148 | a run with all delays 1 and passes less than 2^31 ms apart at whose last pass a due entry is not called, being more than that overdue |
| ActionLayer.LayerState.PutCacheBit | quantum/action_layer.c:237-239 | the exclusive-or update sets the one digit of the key and no other digit of any key |
| ActionLayer.LayerState.UpdateSourceLayersCache | quantum/action_layer.c:232-240 | the cache then stands for the old map with the key at the new layer |
| ActionLayer.LayerState.ReadSourceLayersCache | quantum/action_layer.c:246-257 | returns the layer the map holds for the key, 0 if none |
| ActionLayer.LayerState.LayerSwitchGetLayer | quantum/action_layer.c:291-311 | the layer is 0, or on in the layer state or the default layer state and not transparent; every higher layer on in either is transparent for the key |
| ActionLayer.LayerState.StoreOrGetAction | quantum/action_layer.c:267-285 | a press resolves and remembers, a release reads back what was remembered |
| LayerModel.TopLayer | quantum/action_layer.c:298-307 | the result is opaque or 0, and every layer above it is inactive or transparent |
| LayerModel.DecidedNow | quantum/action_layer.c:291-318 | exactly one layer decides a press, in terms of the two states: on in either and not transparent, or 0, with only transparent ones above; with the cache off it decides releases too |
| LayerModel.KeyNumbersDistinct | quantum/action_layer.c:233-235 | keys have distinct cache cells if and only if the matrix has at most 256 keys |
| LayerModel.ReleaseRepeatsPress | quantum/action_layer.c:260-285 | whatever layers and other keys do in between, press and release get the action of the one layer that decided the key at its own press |
| ActionLayer.LayerState.LayerStateSet | quantum/action_layer.c:117-130 | the state that the code of the keyboard makes of the new one becomes the layer state; the cache stays |
| ActionLayer.LayerState.DefaultLayerStateSet | quantum/action_layer.c:37-50 | the state that the code of the keyboard makes of the new one becomes the default layer state; the cache stays |
| Ps2.Ps2Host.InterruptServiceRoutine | drivers/ps2/ps2_interrupt.c:178-246 | one call computes `Step`: nothing unless the clock fell, else one bit of a frame |
| Ps2.Ps2Host.PbufEnqueue | drivers/ps2/ps2_interrupt.c:267-288 | appends to the ring unless 31 bytes wait |
| Ps2.Ps2Host.PbufDequeue | drivers/ps2/ps2_interrupt.c:289-311 | takes the oldest byte, 0 if there is none |
| Ps2.Ps2Host.HostSend | drivers/ps2/ps2_interrupt.c:110-139 | the levels put on the line are the frame of the byte |
| Ps2Model.EdgeFollows | drivers/ps2/ps2_interrupt.c:203-243 | after each bit, right or wrong, the receiver holds the bits of the frame under way, or is idle with the error recorded; a good stop bit delivers the byte |
| Ps2Model.StreamDecodes | drivers/ps2/ps2_interrupt.c:178-311 | for every stream of bits, good or bad, with bytes taken out at any time, receiver and last error are what parsing it frame by frame gives; bytes handed out and waiting are those of its good frames, in order, if and only if none is delivered while the ring is full |
| Ps2Model.FramedBytes | drivers/ps2/ps2_interrupt.c:178-246 | in frames with right start and stop bits the bytes are exactly those with correct parity: after a wrong parity bit the receiver is back in step |
| Ps2Model.HostFrameDecodes | drivers/ps2/ps2_interrupt.c:110-139 | the frame the host sends has start, parity and stop right and the same decoder gives the byte back |
| MatrixScan.MatrixScanner.GetRealKeys | quantum/keyboard.c:171-181 | the row with the bits of absent keys removed |
| MatrixScan.MatrixScanner.PopcountMoreThanOne | quantum/keyboard.c:183-186 | true exactly if at least two bits are set |
| MatrixScan.MatrixScanner.HasGhostInRow | quantum/keyboard.c:188-210 | true exactly if the row shares two real pressed columns with another row |
| MatrixScan.MatrixScanner.MatrixScanTask | quantum/keyboard.c:443-498 | reports and remembers the first reportable change in row and column order, or sends a tick if there is none |
| MatrixModel.SharedColumns | quantum/keyboard.c:204-208 | the bit trick finds two shared columns exactly when there are two |
| MatrixModel.GhostNeedsTwo | quantum/keyboard.c:189-196 | a row with fewer than two real pressed keys is never ghosted, so the early exit is right |
| MatrixModel.ScanSets | quantum/keyboard.c:473 | a scan sets the reported key as scanned and changes no other remembered bit |
| MatrixModel.EventsReplay | quantum/keyboard.c:443-498 | over every sequence of matrices, the events of each key strictly alternate beginning with a press, and replaying them gives what is remembered |
| MatrixModel.ScanConverges | quantum/keyboard.c:454-492 | a scan lowers the number of wrongly remembered keys by one, or there are none and it sends a tick |
| MatrixModel.StableConverges | quantum/keyboard.c:443-498 | on a stable matrix exactly as many key events as wrongly remembered keys are sent, then only ticks, and every key not withheld is remembered as it is |
| Encoder.Encoders.EncoderUpdate | quantum/encoder.c:107-138 | computes `Update` for the one encoder: pulse, callbacks, count byte, signed remainder; other encoders keep theirs |
| Encoder.Encoders.EncoderRead | quantum/encoder.c:140-148 | every encoder takes one sample of its own pins |
| Encoder.Encoders.EncoderUpdateRaw | quantum/encoder.c:157-178 | each byte of the other half becomes the one received, with net callbacks equal to the signed 8-bit difference; this half is untouched |
| Encoder.Encoders.constructor | quantum/encoder.c:92-104 | every encoder starts with one reading of its pins, no pulses and a count of 0; the left half is counted first, the other half beside this one |
| EncoderModel.LutStep | quantum/encoder.c:48 | the table gives the direction of every single quadrature step |
| EncoderModel.LutJump | quantum/encoder.c:48 | a jump of two steps counts nothing |
| EncoderModel.Conservation | quantum/encoder.c:107-148 | for every smooth turn, resolution times net callbacks plus pulses in hand is the displacement, fewer pulses than a detent are in hand, and the count byte follows |
| EncoderModel.ConservesExactly | quantum/encoder.c:51 | conservation holds for all smooth turns if and only if the resolution is at most 127 |
| EncoderModel.SyncExact | quantum/encoder.c:161 | one synchronisation reports the change of the other half if and only if it fits a signed byte |
| EncoderModel.SyncsConserve | quantum/encoder.c:157-178 | over any number of such synchronisations no turn is lost |
| EepromI2c.Eeprom.FillTargetAddress | drivers/eeprom/eeprom_i2c.c:48-54 | the packet starts with the address, most significant byte first |
| EepromI2c.Eeprom.FillPacket | drivers/eeprom/eeprom_i2c.c:114-117 | address and data of one transmission; the eight-bit counter reaches the end exactly because the loop ends |
| EepromI2c.Eeprom.WriteNext | drivers/eeprom/eeprom_i2c.c:108-132 | one transmission sends what fits on the page to the device of the start of the request, extending what has been written so far |
| EepromI2c.Eeprom.WriteBlock | drivers/eeprom/eeprom_i2c.c:97-140 | for every request on every part: each byte lands in the bank of the start at its own low address, the transmissions tile the request and each lies in one page; it is one flat copy in one bank; the result says whether all packet loops end, and nothing from the first that does not is sent |
| EepromI2c.Eeprom.DriverErase | drivers/eeprom/eeprom_i2c.c:65-79 | every cell is 0 if pages are shorter than 256 bytes; otherwise the first packet loop does not end and nothing changes |
| EepromModel.FlatExactly | drivers/eeprom/eeprom_i2c.c:127 | a request is one flat copy for all contents and data if and only if it stays in one bank |
| EepromModel.CrossingLands | drivers/eeprom/eeprom_i2c.h:75-80 | with the documented banked device address, the second of two bytes across the end of the first bank lands in cell 0 |
| EepromModel.ChunkFits | drivers/eeprom/eeprom_i2c.c:108-127 | a transmission stays on its page, in its bank and in the memory |
| EepromModel.LoopEndsExactly | drivers/eeprom/eeprom_i2c.c:115 | the packet loop ends if and only if the transmission is shorter than 256 bytes |
| EepromModel.EndsExactly | drivers/eeprom/eeprom_i2c.c:107-133 | a request ends if and only if the bytes on its first page are fewer than 256, and those after it too unless pages are shorter than 256 bytes |
| EepromModel.FullPageHangs | drivers/eeprom/eeprom_i2c.c:115 | on pages of 256 bytes nothing of an aligned request of a page or more is ever sent |
| EepromModel.AddressDecodes | drivers/eeprom/eeprom_i2c.c:48-54 | the address bytes decode back to the address modulo what they can hold |
| EepromModel.AddressByte | drivers/eeprom/eeprom_i2c.c:48-54 | each address byte is the one with as many less significant bytes after it |
| EepromModel.WritesFlatExactly | drivers/eeprom/eeprom_i2c.c:107-127 | why requests are split: what the part does is a plain copy for all contents and data if and only if the data stays on its page |
| EepromModel.WriteInPage | drivers/eeprom/eeprom_i2c.c:107-127 | data that stays on its page is not wrapped |
| Crc8.Crc | quantum/crc.c:43-58 | computes the register fed with the message |
| Crc8.StepsLinear | quantum/crc.c:50-55 | feeding is linear under exclusive or |
| Crc8.StepsNonzero | quantum/crc.c:50-55 | no number of bit steps turns a nonzero register into zero or the reverse |
| Crc8.ChecksumsDiffer | quantum/crc.c:43-58 | the checksums of two messages of one length differ by the register of their difference |
| Crc8.RegisterIsSerial | quantum/crc.c:48-56 | the byte-wise loop equals a bit-serial register, most significant bit first |
| Crc8.BurstsDetected | quantum/crc.c:43-58 | messages of any one length that differ in a burst of at most eight bits, anywhere, have different checksums |
| Crc8.NineBitsEscape | quantum/crc.c:52 | a difference spanning nine bits is not noticed, so eight is the limit |
| Via.ViaEeprom.ViaEepromIsValid | quantum/via.c:64-71 | true exactly if the three bytes are the build date |
| Via.ViaEeprom.ViaEepromSetValid | quantum/via.c:75-84 | writes the three magic bytes in order, or 0xFF for invalid |
| Via.ViaEeprom.ViaGetLayoutOptions | quantum/via.c:123-133 | the bytes read most significant first |
| Via.ViaEeprom.ViaSetLayoutOptions | quantum/via.c:137-146 | writes the bytes from the least significant, last address first |
| Via.ViaEeprom.DynamicKeymapGetKeycode | quantum/dynamic_keymap.c:91-97 | the stored keycode of the position |
| Via.ViaEeprom.DynamicKeymapSetKeycode | quantum/dynamic_keymap.c:99-104 | writes the two bytes of the keycode, high byte first |
| Via.ViaEeprom.DynamicKeymapReset | quantum/dynamic_keymap.c:106-117 | writes the keymap of the firmware, layer by layer |
| Via.ViaEeprom.DynamicKeymapMacroReset | quantum/dynamic_keymap.c:190-197 | writes a 0 to every byte of the macro area |
| Via.ViaEeprom.EeconfigInitVia | quantum/via.c:108-119 | the exact sequence of byte writes: magic off, options, keymap, macros, magic on |
| Via.ViaEeprom.ViaInit | quantum/via.c:95-106 | the magic is valid afterwards; nothing is written if it was before |
| ViaModel.Magic | quantum/via.c:65-68 | a build date never gives the byte 0xFF, so three erased bytes are never valid |
| ViaModel.MagicReads | quantum/via.c:65-68 | in hexadecimal the magic reads as year, month and day of the build |
| ViaModel.MagicDistinct | quantum/via.c:65-71 | the magics of two builds agree exactly if their dates do, but for the century |
| ViaModel.KeycodeBytes | quantum/dynamic_keymap.c:99-104 | the two bytes of a keycode, the high one first, two for each key before it; no other byte changes |
| ViaModel.KeysInOrder | quantum/dynamic_keymap.c:86-89 | keys are stored by layer, then by row, then by column |
| ViaModel.LastOptionByte | quantum/via.c:137-146 | the least significant byte of the options is at their last address |
| ViaModel.SetKeycode | quantum/dynamic_keymap.c:91-104 | a keycode reads back as written, and no other position changes |
| ViaModel.OptionsWritten | quantum/via.c:123-146 | options read back as written, modulo 256 to the number of bytes |
| ViaModel.KeymapWritten | quantum/dynamic_keymap.c:106-117 | after a reset every position reads the keycode of the firmware |
| ViaModel.CrashPoint | quantum/via.c:108-119 | after the first k byte writes the magic is valid if and only if none was made and it was valid, or all were |
| ViaModel.InitResets | quantum/via.c:108-119 | a complete run leaves valid magic, default options, the firmware keymap and empty macros |
| ViaModel.UnownedKept | quantum/via.h:28-55 | at no point is a byte outside the areas of VIA changed |
| ViaModel.CrashConsistency | quantum/via.c:95-119 | however often and wherever initialisation is interrupted, a valid magic means the original contents or wholly the reset state, valid contents are never touched, and one run to the end leaves a valid magic |
| SendString.Sender.SendString | quantum/send_string.c:153-194 | performs the actions the string means, in order |
| SendString.Sender.ReadDelay | quantum/send_string.c:173-179 | reads the decimal number up to the first byte that is no digit |
| SendString.Sender.SendBytes | quantum/dynamic_keymap.c:230-253 | performs the meaning of the bytes up to the first null, through temporary strings of one or three bytes |
| SendString.Sender.SkipStrings | quantum/dynamic_keymap.c:213-228 | goes just past the given number of nulls, or finds that there are too few |
| SendString.Sender.DynamicKeymapMacroSend | quantum/dynamic_keymap.c:199-254 | performs the id-th null-separated string, nothing if the area is being written or holds too few strings; every byte read lies in the area unless it ends in a null and holds exactly id nulls |
| SendStringModel.EncodedRuns | quantum/send_string.c:153-194 | round trip: interpreting an encoded list of taps, presses, releases, delays and characters gives the list |
| StoredMacros.KeyRead | quantum/send_string.c:157-171 | 1 and the codes 1, 2 and 3 tap, press and release the keycode that follows |
| StoredMacros.DelayReads | quantum/send_string.c:172-182 | 1 and the code 4 wait for the decimal number that follows, up to the first byte that is no digit, which is skipped |
| StoredMacros.UnknownSkipped | quantum/send_string.c:157-187 | 1 and any other code do nothing, and the code is skipped even if it is the null |
| StoredMacros.MacrosRoundTrip | quantum/dynamic_keymap.c:199-254 | round trip: of any macros stored one after another, each sent by its number performs exactly its own actions |
| SendStringModel.NothingLeft | quantum/dynamic_keymap.c:213-236 | skipping id nulls of an area that ends in one leaves nothing to read if and only if there are exactly id |
| SendStringModel.OverrunOccurs | quantum/dynamic_keymap.c:213-236 | areas of at least a hundred bytes, one string filling all of them, for which sending the second macro reads past the end |
| SendStringModel.MeaningSteps | quantum/dynamic_keymap.c:235-253 | what the next one or two bytes of a stored macro perform, and what remains |
| Oled.OledDriver.constructor | drivers/oled/ssd1306_sh1106.c:228-232 | a cleared buffer, every block dirty, whatever the display shows |
| Oled.OledDriver.OledClear | drivers/oled/ssd1306_sh1106.c:242-246 | every byte 0, the cursor at the start, every block dirty |
| Oled.OledDriver.OledSetCursor | drivers/oled/ssd1306_sh1106.c:355-364 | the cursor at the character position, or at the start if that is outside |
| Oled.OledDriver.OledAdvanceChar | drivers/oled/ssd1306_sh1106.c:388-404 | one glyph on, or the next line, or the start; a glyph fits there |
| Oled.OledDriver.OledAdvancePage | drivers/oled/ssd1306_sh1106.c:366-386 | the start of the next line, or blanks over the rest of this one |
| Oled.OledDriver.OledWriteChar | drivers/oled/ssd1306_sh1106.c:407-450 | computes `Step`: newline, return, or the character drawn (CharacterWritten), inverted if asked for; marks two blocks exactly if a byte changed |
| Oled.OledDriver.OledWriteRaw | drivers/oled/ssd1306_sh1106.c:498-507 | writes what fits from the cursor on, marking only blocks with changed bytes |
| Oled.OledDriver.OledWriteRawByte | drivers/oled/ssd1306_sh1106.c:491-496 | writes one byte, marking its block only if it changes |
| Oled.OledDriver.OledWritePixel | drivers/oled/ssd1306_sh1106.c:509-527 | writes the byte with the bit of the pixel set or cleared, marking its block if it changes; nothing outside the panel |
| OledPicture.CharacterWritten | drivers/oled/ssd1306_sh1106.c:426-438 | byte by byte from the cursor on: the bytes of the font for the character, 0 if it is not in the font, their complement if inverted; every other byte stays |
| OledPicture.CharacterPixels | drivers/oled/ssd1306_sh1106.c:355-438 | in pixels: the character in a column of a line appears in the cell of that column and line |
| OledPicture.CharacterAdvances | drivers/oled/ssd1306_sh1106.c:388-404 | the cursor is then in the next column, on the next line if no character fits there, or at the top after the last line |
| OledPicture.CursorGoes | drivers/oled/ssd1306_sh1106.c:355-364 | the cursor is at that column of that line, or at the start if the line is below the panel |
| OledPicture.ReturnGoes | drivers/oled/ssd1306_sh1106.c:376-385 | a return goes to the start of the next line, or of the first, and draws nothing |
| OledPicture.LineCleared | drivers/oled/ssd1306_sh1106.c:366-375 | a newline fills the rest of the line with as many blanks as fit, changes nothing else and goes to the next line |
| OledPicture.PixelWritten | drivers/oled/ssd1306_sh1106.c:509-527 | a pixel written reads back, and no other pixel of the panel changes; pixels are given by the text line and column that hold them |
| OledPicture.PixelOutside | drivers/oled/ssd1306_sh1106.c:510-516 | outside the panel nothing is written |
| OledPicture.RawWritten | drivers/oled/ssd1306_sh1106.c:498-507 | the data is in the buffer from the cursor on, as far as there is room, and nothing else changes |
| OledPicture.RawMarks | drivers/oled/ssd1306_sh1106.c:498-507 | a block is newly marked only if a byte of it changes |
| OledPicture.CharacterMarks | drivers/oled/ssd1306_sh1106.c:440-446 | a character drawn over itself marks nothing, any other no block but those of its first and last byte |
| OledPicture.RowsPanned | drivers/oled/ssd1306_sh1106.c:465-482 | each byte of a row is that of its neighbour on the side panned from; the one at the far end stays |
| OledPicture.DisplayIsBuffer | drivers/oled/ssd1306_sh1106.c:293-353 | once enough renders have succeeded, the display of a panel that is not rotated holds the buffer byte by byte |
| OledPicture.ScrollStarts | drivers/oled/ssd1306_sh1106.c:652-686 | scrolling starts exactly when nothing is left to send and the command succeeds, so the display then shows the whole buffer |
| OledPicture.ScrollingSilent | drivers/oled/ssd1306_sh1106.c:293-302 | while it scrolls nothing is sent |
| OledDisplay.PixelSet | drivers/oled/ssd1306_sh1106.c:515-521 | the byte written differs from the old one in the bit of the pixel only, which is as asked for |
| Oled.OledDriver.OledPan | drivers/oled/ssd1306_sh1106.c:465-482 | every row moved by one byte, every block dirty |
| Oled.OledDriver.Rotate90 | drivers/oled/ssd1306_sh1106.c:284-291 | the eight destination bytes gather the turned source on top of what they held |
| Oled.OledDriver.OledRender | drivers/oled/ssd1306_sh1106.c:293-353 | sends the first dirty block, turned in a rotated panel; it is clean only after both transmissions succeeded |
| Oled.OledDriver.OledScrollOn | drivers/oled/ssd1306_sh1106.c:652-686 | starts only when no block is dirty |
| Oled.OledDriver.OledScrollOff | drivers/oled/ssd1306_sh1106.c:688-703 | marks every block when scrolling ends |
| OledModel.Panel128x32Fits | drivers/oled/oled_driver.h:72-104 | the standard 128x32 panel, turned or not, meets what the theorems ask of a panel, and its rotation targets do not overlap |
| OledModel.Panel128x64Fits | drivers/oled/oled_driver.h:29-61 | the same for the 128x64 panel |
| OledModel.CrotDigits | drivers/oled/ssd1306_sh1106.c:278-282 | each bit is rotated to the left by n modulo 8, also for negative n |
| OledModel.GatherDigits | drivers/oled/ssd1306_sh1106.c:284-291 | bit i of column j arrives at position 7 - j of byte i, and nothing else does |
| OledModel.BlockRotates | drivers/oled/ssd1306_sh1106.c:323-334 | in a rotated block every group of eight bytes is the quarter turn of its source group, wherever that lies, if the target groups do not overlap |
| OledDisplay.GlyphTouchesTwo | drivers/oled/ssd1306_sh1106.c:440-446 | a glyph lies in the blocks of its first and its last byte |
| OledDisplay.CursorSet | drivers/oled/ssd1306_sh1106.c:355-364 | a whole glyph fits on the line of a cursor set to a column in range |
| OledDisplay.StepKeeps | drivers/oled/ssd1306_sh1106.c:242-527 | if source groups lie in their blocks, every operation keeps every clean block equal to what the display shows of it, and the cursor where a glyph fits |
| OledDisplay.DisplayCoherence | drivers/oled/ssd1306_sh1106.c:242-703 | if source groups lie in their blocks: over every sequence of draws, pans, clears, renders and scrolls with any transmission failing, every block not dirty is shown as the buffer has it while not scrolling |
| OledTables.CoherentExactly | drivers/oled/ssd1306_sh1106.c:318-334 | with target groups apart, the display stays coherent over every sequence of operations if and only if the panel is not rotated or every source group lies in its block |
| OledTables.NotedTables | drivers/oled/oled_driver.h:62-64 | with the tables noted for a 32-bit block mask the display does not stay coherent, the first source group lies in the next block, and that of the last block past the buffer |
| OledTables.NotedByte | drivers/oled/oled_driver.h:62-64 | with them, changing the first byte of the second block changes what the first one is to show |
| OledDisplay.DisplayConverges | drivers/oled/ssd1306_sh1106.c:293-353 | without further writes as many successful renders as there are blocks make the whole display show the buffer, whatever fails in between |

## Left out

Tap/hold resolution
- Other configurations than the default one: combos, retro shift, permissive hold, hold on other key press, forced hold, per-key terms and terms of 500 ms or more.
- `process_record` is an append to the dispatch log, which may take an interrupted tap back. The record edits at quantum/action.c:709 and 784, for swap-hands and one-shot keys, are excluded.
- `process_record_tap_hint`, which has no effect on the state modelled.

Dynamic macros
- What replayed keys do, other than an arbitrary change of the layer state; a key that starts a recording inside a macro; LED blinking.

Deferred execution
- Callbacks that change their own table while it runs; the basic interface around a fixed table; a null table (a table of length 0 behaves the same).

Layers
- A layer state is the set of its bits, 32 of them, so the bitwise layer operations (on, off, and, or, xor) are set operations and have no members of their own; `STRICT_LAYER_RELEASE`.
- ActionLayer.LayerState.LayerStateSet: the keys cleared when the state changes are not part of the model.
- ActionLayer.LayerState.DefaultLayerStateSet: the keys cleared when the state changes are not part of the model.
- ActionLayer.LayerState.constructor: requires at most 256 keys, because beyond that cells are shared (KeyNumbersDistinct).

OLED
- Oled.OledDriver.OledRender: the addressing commands (`calc_bounds`) are left out, so which part of the panel a block occupies.
- OledDisplay.DisplayCoherence: for the same reason about blocks and not about pixels; the display is a list of blocks.
- OledDisplay.DisplayConverges: about blocks and not about pixels, likewise.
- What follows the buffer in memory is arbitrary and may change at any time, but a read past the buffer is taken to have no other effect.
- Calls before initialisation; power, brightness, timeouts, inversion; the string wrappers; reading back.
- Oled.OledDriver.OledSetCursor: the column must be one of those on a line.
- Oled.OledDriver.OledWriteRawByte: the index must lie in the buffer; the source lets the index just past it through.

EEPROM and VIA
- Via.ViaEeprom.ViaInit: `via_init_kb` and the layout-options callback are left out.
- The buffer commands of the dynamic keymap (offset and size), raw HID routing, lighting, keyboard-level callbacks, custom configuration bytes beyond their being left alone.
- EEPROM writes are whole byte writes; an update of an equal byte counts as a write.

Strings
- The waiting between characters, the programme-memory variants, delays beyond the range of an `int`, and strings whose end is not reached within the memory.
- SendString.Sender.SendString: requires a string that is terminated and whose commands are complete, as a C string must be.
- SendString.Sender.DynamicKeymapMacroSend: stops before a byte outside the area, whose value is not part of the model.

PS/2
- Ps2.Ps2Host.HostSend: only transmissions in which the device answers in time; the error exits, the acknowledgement and the response are left out.

Matrix scan
- MatrixScan.MatrixScanner.MatrixScanTask: `should_process_keypress` is taken to hold, and the flag of the scan itself is not passed on.
- Several keys per scan, event times, debug output. Rows are numbers without a width; only bits of columns in the matrix are used.

Encoders
- `ENCODER_DEFAULT_POS`, which resets the pulse count; the pads of the right half; weak callbacks.

EEPROM over I2C
- Failing transmissions, the write-protect pin, waiting and reading; addresses wider than `uintptr_t`.
- Parts whose banks are not made of whole pages, and parts larger than their addresses reach.

CRC
- The table variant, which uses another polynomial and is another function.
