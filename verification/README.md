# Verified model of the IoT controller

A Dafny model of the stateful protocols and codecs of the controller, with proofs of what they
promise. `dafny verify dfyconfig.toml` checks all of it.

| Part | Files | Models |
|---|---|---|
| Binding matcher | `Bindings`, `Debounce`, `DebounceProgress`, `Matcher` | choosing the winning Bindings of a device event; the per-(property, device) debounce windows, deferred timers and stale callbacks |
| Active Computer Stack | `ActivationStack`, `Bridge` | per-axis priority stacks with TTLs, and the priority tiers that feed them |
| Reconciler | `Reconciler`, `ReconcilerRuns`, `ReconcilerService`, `ZoneRecord` | composing a target from the stacks, suppressing redundant writes, TTL wakeups, the field-wise merge into a zone |
| Zone flush | `ZoneFlush`, `ZoneDevices`, `Decimal` | the idempotency cache between a zone and its devices |
| Serial link | `AshFrame`, `AshLaws`, `Framing`, `Ezsp`, `AshStream` | byte stuffing, randomization, CRC, framing and the receive side of a session (Silicon Labs UG101 and UG100 formats) |
| Simple Command Format | `Scf` | the schema-driven serializer and parser |
| Computers | `Circadian`, `Fade`, `Canonical` | the two interpolating computers and the canonical tables |

## How the model is built

Each stateful part is a value-level state with one function per step, lemmas about runs of those
steps, and a class (`Matcher.Matcher`, `ActivationStack.AxisStack`, `ReconcilerService.Service`,
`ZoneDevices.Zone`, `AshStream.Receiver`, `Fade.FadeComputer`) whose methods update fields the way
the program does and are each proved equal to the step function. Loops of the program are methods
with invariants, proved against the specification functions.

The outside world is a parameter: the clock (an explicit `now`), the result of listing Bindings,
the outcome of an `ApplyValues` call, which device handlers fail, what random colours are picked,
the order in which a map is walked, sunrise and sunset, and the start of a fade's window on the
current day. Floating point is `real`; times and durations are integer nanoseconds. 32-bit and
8-bit arithmetic is written out where it can wrap.

## Where code and documentation differ

The model follows the code.

- Ties on specificity are documented as broken by name (`docs/bindings.md`, `api/v1/binding_types.go`); the code dispatches all tied winners, in name order.
- The documented ranking of selector fields is not what the summed weights give: `Bindings.RankingExact` says exactly how many label keys it survives.
- A refresh keeps the old computer, arguments and priority, so compacting an expired entry can be seen by a later push: `ActivationStack.RefreshRevealsCompaction`, `ActivationStack.RefreshAfterCompaction`; and a refreshed entry that was compacted away loses its place among equals: `ActivationStack.TieRevealsCompaction`, `ActivationStack.TieExact`.
- A failed `ApplyValues` may have moved the zone although the cache of the last target has not: `Reconciler.FailedApplySticks`, `Reconciler.FailedApplyExact`.
- A push and its TTL timer are documented to leave the latest timer; no lock joins the two, so concurrent pushes of one source can leave the other's: `ReconcilerRuns.CrossedPushesLoseWakeup`, `ReconcilerRuns.CrossedPushesExact`.
- Removing or outliving an override brings the old target back, not always the old zone: `ZoneRecord.OverrideLeavesColor`, `ZoneRecord.OverrideUndoneExact`.
- The clock is read before the debounce lock is taken, so the dwell claim in clock terms fails when a reading is overtaken: `Debounce.OvertakenClockReadingBreaksDwell` is such a run, `Debounce.DwellExact` the exact condition.
- SCF's length guards for wide slices compare the wrong way round; truncated input documented as invalid data goes out of range instead: `Scf.TruncatedInputPanics`, `Scf.PanicExact`. `Guard.Corrected` is the guard the code means, not the one it has.
- Random colours bypass the flush cache: `ZoneFlush.RandomColorSticks`, `ZoneFlush.ColorAfterRandom`.
- Computers are documented as pure; fade deletes its snapshot at its terminal tick. A snapshot under an empty condition or zone name is never deleted, and one that no tick cleared spoils the next window: `Fade.StaleSnapshotEndsAtOnce`, `Fade.NextWindowExact`.
- `BrightnessNearestEnum` is documented to give the lowest step for negative values; it gives none. The older mired table gives LateAfternoon the value of Day: `Canonical.ColorTempPathsAgree`.
- The link acknowledges and hands on a DATA frame whether or not it is in sequence (`AshStream.HandleSent`), and checks the CRC of DATA frames only: `AshStream.CorruptionResets`, `AshStream.CorruptionExact`.

## Model

| member | source | states |
|---|---|---|
| `Bindings.WinnersExact` | pkg/iot/bindings/match.go:212-250 | the winners are exactly the matching Bindings that no matching Binding out-scores, in strictly ascending name order |
| `Bindings.WinnersOrderIndependent` | pkg/iot/bindings/match.go:212-250 | the order in which Bindings are listed does not change the winners |
| `Bindings.SortedUnique` | pkg/iot/bindings/match.go:229-236 | with distinct names there is one sorted arrangement of the candidates |
| `Bindings.RefiningSelectorOverrides` | pkg/iot/bindings/match.go:591-629 | a strictly refining selector matches a subset of the devices and scores strictly higher |
| `Bindings.RefinedNeverWins` | pkg/iot/bindings/match.go:591-629 | when the refining Binding matches an event, the refined one is not among the winners |
| `Bindings.RankingExact` | pkg/iot/bindings/match.go:612-629 | the scores follow the documented field ranking iff selectors have at most one label key |
| `Bindings.ValuesAreAlternatives` | pkg/iot/bindings/match.go:574-586 | a trigger with a list of values matches iff one of its single-value triggers does |
| `Bindings.OwnTriggerMatches` | pkg/iot/bindings/match.go:566-587 | a trigger made from an event matches the events of that property and value and no others |
| `Bindings.OpenTriggerMatches` | pkg/iot/bindings/match.go:566-587 | a trigger without values matches every value of its property, one without a property nothing |
| `Bindings.ValuesOverrideValue` | pkg/iot/bindings/match.go:574-586 | with a list of values the single value does not matter |
| `Bindings.OwnSelectorMatches` | pkg/iot/bindings/match.go:591-610 | a selector copied from a device matches it, and the empty one matches every device |
| `Bindings.OneFieldMatches` | pkg/iot/bindings/match.go:591-610 | a selector with one field matches exactly the devices with that IEEE address, name, type, zone or label |
| `Bindings.SelectorIsConjunction` | pkg/iot/bindings/match.go:591-610 | a selector matches iff each of its one-field restrictions does |
| `Bindings.SpecificityTable` | pkg/iot/bindings/match.go:612-629 | each field adds its documented weight: 16, 8, 4 per label key, 2 and 1 |
| `DebounceProgress.ArriveActivates` | pkg/iot/bindings/match.go:252-289 | an event activates, in the winners' order, the Conditions of those without MinDuration and of those it has just marked fired, and nothing else |
| `DebounceProgress.LoneBindingActivates` | pkg/iot/bindings/match.go:185-289 | a lone Binding without MinDuration activates its Condition on exactly the events it matches |
| `DebounceProgress.ValuesBindingActivates` | pkg/iot/bindings/match.go:185-289 | a Binding for some values of a property activates on exactly those |
| `DebounceProgress.DeviceBindingActivates` | pkg/iot/bindings/match.go:185-289 | a Binding for one device's property activates on every value from that device and from no other |
| `DebounceProgress.FindNamedExact` | pkg/iot/bindings/match.go:472-493 | the callback's scan finds a Binding iff one of that name is listed and still matches |
| `DebounceProgress.FireActivatesExact` | pkg/iot/bindings/match.go:428-512 | a callback activates a Condition iff its Binding is still listed, matches the current value, has not fired in the window and has dwelt |
| `DebounceProgress.ObserveStopsTimers` | pkg/iot/bindings/match.go:350-374 | a new value takes exactly its key's timers from the scheduler, a repeated one none |
| `DebounceProgress.ScheduleDue` | pkg/iot/bindings/match.go:384-421 | a Binding gets one timer per window, due epsilon past the dwell while that is ahead and epsilon from now afterwards, never before the dwell is over and never in the past |
| `Debounce.RunKeepsInv` | pkg/iot/bindings/match.go:330-555 | in every interleaving of lock-sized steps each entry is explained by the history: its value is the last one observed, its window the stable stretch since, its fired flags the dispatches in it |
| `Debounce.AtMostOncePerWindow` | pkg/iot/bindings/match.go:428-555 | in every interleaving, stale callbacks included, a new stable-value window opened between two dispatches of one Binding |
| `Debounce.DwellBeforeDispatch` | pkg/iot/bindings/match.go:521-555 | at every dispatch of every interleaving the current value had been observed for MinDuration and no other value since; in clock terms too when the reading that opened that window was not overtaken |
| `Debounce.DwellExact` | pkg/iot/bindings/match.go:330-555 | in every reachable state the dispatches that a window still allows dwell in clock terms iff no earlier observation of another value carries a later reading than the one that opened the window |
| `Debounce.OvertakenClockReadingBreaksDwell` | pkg/iot/bindings/match.go:330-374 | a concrete interleaving where an overtaken clock reading dispatches before the dwell is over |
| `DebounceProgress.NoLostFire` | pkg/iot/bindings/match.go:252-512 | from every state that whole calls with any Binding lists reach from the empty matcher, over any whole calls that keep the window open and any clock readings, a winning debounced Binding has been dispatched exactly once in it, or never and its callback is still pending, due at opening + MinDuration + epsilon or, armed past that, at least epsilon later |
| `DebounceProgress.OwedOnTime` | pkg/iot/bindings/match.go:384-421 | when timers are armed at most epsilon after their dispatch was tried, the pending callback is due exactly at opening + MinDuration + epsilon |
| `DebounceProgress.DeliveryDispatches` | pkg/iot/bindings/match.go:428-512 | when the owed callback is delivered while the window is open, the Binding has then been dispatched exactly once in it |
| `DebounceProgress.ReachableKeeps` | pkg/iot/bindings/match.go:185-512 | in every state that whole calls reach, failed lists, Binding edits and stale callbacks included, the history explains the entries and every recorded timer is pending for its key and Binding |
| `DebounceProgress.ArriveKeeps` | pkg/iot/bindings/match.go:185-289 | serving an event keeps the history invariant, and every recorded timer stays pending with the scheduler |
| `DebounceProgress.DeliverKeeps` | pkg/iot/bindings/match.go:428-512 | delivering a timer keeps both |
| `Matcher.FindWinners` | pkg/iot/bindings/match.go:212-250 | collecting, sorting and cutting after the top score computes the winners |
| `Matcher.FindBinding` | pkg/iot/bindings/match.go:472-493 | the callback's scan finds the Binding of that name iff it still matches |
| `Matcher.Matcher.FindConditions` | pkg/iot/bindings/match.go:185-289 | the object serves an event as the step function does, returning the same Conditions; a failed list changes nothing |
| `Matcher.Matcher.ObserveValue` | pkg/iot/bindings/match.go:330-374 | a new value stops all timers of the key and opens a window, a repeated one only renews the device |
| `Matcher.Matcher.DebounceDispatch` | pkg/iot/bindings/match.go:521-555 | dispatches, and marks fired, iff the dwell is over and the Binding has not fired in this window |
| `Matcher.Matcher.ScheduleDeferred` | pkg/iot/bindings/match.go:384-421 | arms at most one timer per Binding and window, due at first sight + MinDuration + epsilon |
| `Matcher.Matcher.FireDeferred` | pkg/iot/bindings/match.go:428-512 | a due timer is forgotten and its Binding dispatched if it still exists, matches and has not fired |
| `ActivationStack.ActivationIdInjective` | modules/conditioner/stack.go:92-94 | no two (kind, name) pairs share an activation id |
| `ActivationStack.PushContents` | modules/conditioner/stack.go:109-132 | push writes one entry for the id, keeps ids unique and leaves every other entry |
| `ActivationStack.TopIsMaximum` | modules/conditioner/stack.go:141-163 | top is a live entry that no live entry outranks by (priority, push time), and exists iff something is live |
| `ActivationStack.TopIsHighestThenLatest` | modules/conditioner/stack.go:141-163 | the top is live, and every live entry has a lower priority or the same and no later stamp |
| `ActivationStack.LatestPushWins` | modules/conditioner/stack.go:154-160 | of two equal live entries the one pushed last is on top, whichever stands first |
| `ActivationStack.PushTakesTop` | modules/conditioner/stack.go:109-163 | a push that no live entry exceeds in priority and that is stamped last takes the top |
| `ActivationStack.ExpiryMoment` | modules/conditioner/stack.go:57-69 | an entry ends right after stamp plus TTL, and never without stamp or TTL or with TTL zero |
| `ActivationStack.RunUnique` | modules/conditioner/stack.go:109-217 | ids stay unique in every run |
| `ActivationStack.RemovalRestores` | modules/conditioner/stack.go:109-217 | after any run, evicting a source leaves contents and order as in the run where it never pushed |
| `ActivationStack.ExpiryRestoresTop` | modules/conditioner/stack.go:57-192 | once a source's entry has expired, top is that of the run where it never pushed |
| `ActivationStack.CompactionInvisible` | modules/conditioner/stack.go:141-192 | compaction at any points of a run never changes how top ranks, nor top itself unless another live entry ties with it, when ids repeat their payload |
| `ActivationStack.RefreshAfterCompaction` | modules/conditioner/stack.go:109-192 | on every stack, compacting before a push shows in the live entries afterwards iff the push is a live refresh of an expired entry that had another payload |
| `ActivationStack.RefreshRevealsCompaction` | modules/conditioner/stack.go:109-192 | a source that comes back with another payload after it expired: what it finds depends on whether the stack was compacted |
| `ActivationStack.TieExact` | modules/conditioner/stack.go:109-192 | on every stack, compacting before a push that repeats its source's payload changes the top iff the pushed entry ties with the top of the entries after its expired predecessor and outranks those before it |
| `ActivationStack.TieRevealsCompaction` | modules/conditioner/stack.go:141-192 | two tied live entries for which compaction changes the top |
| `ActivationStack.AxisStack.PushActivation` | modules/conditioner/stack.go:109-132 | the in-place push loop: overwrite, refresh or append |
| `ActivationStack.AxisStack.TopAt` | modules/conditioner/stack.go:141-163 | the search loop returns the top |
| `ActivationStack.AxisStack.RemoveExpired` | modules/conditioner/stack.go:173-192 | the compaction loop keeps the live entries in order |
| `ActivationStack.AxisStack.RemoveByID` | modules/conditioner/stack.go:201-217 | the eviction loop removes the entry of that id and says whether there was one |
| `ZoneRecord.ApplyIdempotent` | modules/zonekeeper/zonekeeper.go:214-248 | applying a target twice is applying it once |
| `ZoneRecord.ApplyOverlays` | modules/zonekeeper/zonekeeper.go:214-248 | a field group takes the target's value where the target sets it, continuous before discrete, and keeps its own elsewhere |
| `ZoneRecord.HoldsAfterIffAgrees` | modules/zonekeeper/zonekeeper.go:214-248 | a zone that holds one target still holds it after another was applied iff the two agree where both set something |
| `ZoneRecord.OverrideUndoneExact` | modules/zonekeeper/zonekeeper.go:214-257 | applying the base again after an override gives the zone back iff the zone already had whatever the override sets and the base does not, and needed no raise to Off |
| `ZoneRecord.OverrideLeavesColor` | modules/zonekeeper/zonekeeper.go:238-241 | a zone that keeps the colour of an override that is over |
| `Reconciler.ApplyTopToValues` | modules/conditioner/stack.go:344-369 | walking the axes in any order composes one target; it fails iff some axis' computer fails |
| `Reconciler.SuppressionInvisible` | modules/conditioner/reconciler.go:328-375 | over whole runs the suppressing reconciler leaves zones and stacks as one that always writes, and merging the last target again is a no-op |
| `Reconciler.NilMeansApplied` | modules/conditioner/reconciler.go:280-391 | in every reachable state a pass that returns nil leaves the zone merged with the composed target |
| `Reconciler.EmptyTargetSendsNothing` | modules/conditioner/reconciler.go:354-363 | a pass that composes nothing sends nothing and keeps the cache |
| `Reconciler.FailedComputeSendsNothing` | modules/conditioner/reconciler.go:328-338 | a pass whose computer fails sends nothing and keeps the cache |
| `Reconciler.FailedApplyExact` | modules/zonekeeper/zonekeeper.go:214-257 | after a failure that had already merged, the next suppressed pass is right iff the failed target agreed with the cached one |
| `Reconciler.FailedApplySticks` | modules/conditioner/reconciler.go:340-371 | a run of two pushes and a tick: a zone stays off after such a failure although the tick returns nil with On alone on the stack |
| `ReconcilerRuns.StackProjection` | modules/conditioner/reconciler.go:200-391 | a reconciler run acts on each axis stack as the run of its share of the operations |
| `ReconcilerRuns.RemovalRestoresTarget` | modules/conditioner/reconciler.go:629-656 | evicting a source leaves all stacks of a zone and the next target as in the run where it never pushed |
| `ReconcilerRuns.ExpiryRestoresTarget` | modules/conditioner/reconciler.go:280-330 | once its entries have expired, the composed target is that of the run without the source |
| `ReconcilerRuns.TtlWakeup` | modules/conditioner/reconciler.go:236-320 | in every punctual run each entry with a positive TTL has its source's latest timer outstanding, due after it expires, and the pass that timer runs leaves it off the stack |
| `ReconcilerRuns.StampMustPrecedeArrival` | modules/conditioner/reconciler.go:236-320 | the pass that a timer delivered on the dot runs leaves its source off the stack iff the push was stamped before it arrived |
| `ReconcilerRuns.HalvesMakePush` | modules/conditioner/reconciler.go:228-261 | stack half and timer half in sequence are the push step |
| `ReconcilerRuns.CrossedPushesExact` | modules/conditioner/reconciler.go:228-261 | when two pushes of one source cross between stack and timer, the entry is covered by the timer that is left iff that timer is due after the entry expires |
| `ReconcilerRuns.CrossedPassExact` | modules/conditioner/reconciler.go:228-320 | the pass which that timer runs on the dot takes the source off its stack iff the same holds |
| `ReconcilerRuns.CrossedPushesLoseWakeup` | modules/conditioner/reconciler.go:228-261 | a crossing of a short and a long TTL after which the entry stays and no timer is left |
| `ReconcilerService.Service.PushActivation` | modules/conditioner/reconciler.go:200-271 | the object pushes, arms the timer and reconciles as the step function does; an empty zone, an unspecified axis, a nil activation and an unknown computer are refused |
| `ReconcilerService.Service.ReconcileZone` | modules/conditioner/reconciler.go:280-391 | compaction, composition, suppression, write and cache update as the step function does |
| `ReconcilerService.Service.RemoveActivation` | modules/conditioner/reconciler.go:629-656 | evicts the source on every axis, then reconciles |
| `ReconcilerService.Service.TtlTimerFires` | modules/conditioner/reconciler.go:252-260 | a delivered timer is no longer outstanding and reconciles its zone |
| `Bridge.ClaimedAxesExact` | modules/conditioner/bridge.go:438-453 | an axis is claimed iff its share of the output is not empty |
| `Bridge.ClaimedAxesCarryAll` | modules/conditioner/bridge.go:438-453 | folding in the claimed axes alone gives back the whole output |
| `Bridge.TimeWindowPushesExact` | modules/conditioner/bridge.go:110-270 | exactly what the evaluation loop pushes, and only inside the window: source, axis, computer, arguments, priority, stamp and TTL |
| `Bridge.ImperativePushesExact` | modules/conditioner/bridge.go:296-427 | exactly what a binding or alert pushes: the same at 100 or 200, with five minutes or the TTL the computer suggests |
| `Bridge.TimeWindowPushesInTier` | modules/conditioner/bridge.go:110-270 | everything the evaluation loop pushes is a time-window source at priority 50 or 60 |
| `Bridge.ImperativePushesInTier` | modules/conditioner/bridge.go:296-427 | everything a binding pushes is at 100, everything an alert pushes at 200 |
| `Bridge.TierDominance` | modules/conditioner/bridge.go:61-151 | in every run whose accepted pushes are requests the bridge makes, refreshes included, a live alert is topped only by an alert and a live binding never by a time window |
| `AshFrame.EscapeRoundTrip` | pkg/zigbee-dongle/ember/frame.go:43-163 | unescaping undoes escaping |
| `AshFrame.EscapeHidesFlags` | pkg/zigbee-dongle/ember/frame.go:152-163 | escaped data holds no frame delimiter |
| `AshLaws.EscapeTable` | pkg/zigbee-dongle/ember/frame.go:152-163 | which four bytes are escaped and to what; every other byte stands for itself |
| `AshLaws.EscapeHidesReserved` | pkg/zigbee-dongle/ember/frame.go:152-163 | escaped data holds no FLAG, XON or XOFF |
| `AshFrame.EscapeFrame` | pkg/zigbee-dongle/ember/frame.go:152-163 | the escaping loop computes the escaped form |
| `AshFrame.UnescapeFrame` | pkg/zigbee-dongle/ember/frame.go:43-59 | the unescaping loop computes the unescaped form, a trailing escape byte standing for itself |
| `AshFrame.GeneratePseudoRandomSequence` | pkg/zigbee-dongle/ember/frame.go:226-241 | the loop yields the shift register's sequence |
| `AshFrame.RandomizeData` | pkg/zigbee-dongle/ember/frame.go:244-254 | the loop computes the randomized data |
| `AshFrame.RandomizeInvolution` | pkg/zigbee-dongle/ember/frame.go:244-260 | randomizing twice gives the data back |
| `AshLaws.RandomNonzero` | pkg/zigbee-dongle/ember/frame.go:226-241 | the pseudo-random sequence starts with 0x42 and never shows zero |
| `AshLaws.RandomRecurs` | pkg/zigbee-dongle/ember/frame.go:226-241 | its low bits obey the recurrence of the polynomial |
| `AshLaws.RandomPeriod` | pkg/zigbee-dongle/ember/frame.go:226-241 | it repeats after 255 elements |
| `AshLaws.RandomDistinct` | pkg/zigbee-dongle/ember/frame.go:226-241 | any 255 consecutive elements are distinct |
| `AshFrame.CrcCCITT` | pkg/zigbee-dongle/ember/frame.go:329-342 | the nested loops compute the CRC |
| `AshFrame.CrcByteInjective` | pkg/zigbee-dongle/ember/frame.go:329-342 | the byte step is injective in the CRC state |
| `AshFrame.CrcDetectsOneByte` | pkg/zigbee-dongle/ember/frame.go:329-342 | messages of one length that differ in exactly one byte have different CRCs |
| `AshLaws.CrcBitIsRemainder` | pkg/zigbee-dongle/ember/frame.go:329-342 | a bit step multiplies by x modulo x^16 + x^12 + x^5 + 1 |
| `AshLaws.CrcByteLinear` | pkg/zigbee-dongle/ember/frame.go:329-342 | the byte step is linear in state and byte together |
| `AshLaws.CrcCheckValue` | pkg/zigbee-dongle/ember/frame.go:329-342 | the check value of the digits 1 to 9 is 0x29B1 |
| `AshFrame.ParseBuiltData` | pkg/zigbee-dongle/ember/frame.go:64-288 | a built DATA frame parses back to its control bits, field and CRC |
| `AshFrame.ParseBuiltAckNak` | pkg/zigbee-dongle/ember/frame.go:292-326 | ACK and NAK frames parse back to their kind and number |
| `AshLaws.ParseTable` | pkg/zigbee-dongle/ember/frame.go:64-148 | what ACK, NAK, RST, RSTACK and ERROR contents and malformed ones parse to |
| `AshLaws.AckFrameBytes` | pkg/zigbee-dongle/ember/frame.go:292-310 | the five bytes of an acknowledgement |
| `AshLaws.DataFrameBytes` | pkg/zigbee-dongle/ember/frame.go:265-288 | the nine bytes of a DATA frame with four bytes of payload |
| `AshFrame.GateDetectsOneByte` | pkg/zigbee-dongle/ember/controller.go:1013-1031 | the CRC gate passes every built frame and rejects it after any one byte of its content has changed |
| `Framing.SplitExact` | pkg/zigbee-dongle/ember/controller.go:899-992 | what splitting at FLAG gives is FLAG-free and joins to the stream again |
| `Framing.JoinExact` | pkg/zigbee-dongle/ember/controller.go:899-992 | splitting joined FLAG-free segments gives exactly those segments |
| `Framing.FramerExact` | pkg/zigbee-dongle/ember/controller.go:899-992 | for every stream the frames are: nothing before the first FLAG, there at most one rebuilt from the buffered prefix iff it is accepted, and then exactly the non-empty completed segments between FLAGs |
| `Framing.WireFrames` | pkg/zigbee-dongle/ember/controller.go:899-992 | frames put on the wire one after another are recovered exactly, adjacent FLAGs doubled or shared |
| `AshStream.FrameParser` | pkg/zigbee-dongle/ember/controller.go:899-992 | the parser loop emits the frames of the byte-by-byte framer |
| `AshStream.LinkRoundTrip` | pkg/zigbee-dongle/ember/controller.go:899-1059 | every list of (control below 0x80, payload) comes through building, wire, framer, parser, CRC gate and derandomizing as it went in, in order |
| `AshStream.CorruptionRejected` | pkg/zigbee-dongle/ember/controller.go:1009-1031 | a frame that differs from a built one in one unescaped byte is never handed on |
| `AshStream.CorruptionExact` | pkg/zigbee-dongle/ember/controller.go:995-1164 | what such a frame does: answered with NAK iff it is a DATA frame now, as a NAK it makes the last frame go out again, as an RSTACK it resets both counters, as anything else it is ignored |
| `AshStream.CorruptionResets` | pkg/zigbee-dongle/ember/controller.go:1151-1156 | one changed bit of a control byte that resets the session, whatever the payload |
| `AshStream.HandleSent` | pkg/zigbee-dongle/ember/controller.go:1033-1118 | a DATA frame with any payload is acknowledged and handed on, and advances the receive counter iff it is in sequence |
| `AshStream.SeqCounts` | pkg/zigbee-dongle/ember/controller.go:1033-1037 | sequence numbers count modulo eight |
| `AshStream.RetransmittedParses` | pkg/zigbee-dongle/ember/controller.go:1128-1141 | a retransmission is the same frame with the retransmit bit set |
| `AshStream.RoutingExact` | pkg/zigbee-dongle/ember/controller.go:1080-1118 | an extended frame goes to a waiting command iff it has the response bit, no asynchronous bit and its sequence |
| `AshStream.SessionRoundTrip` | pkg/zigbee-dongle/ember/controller.go:899-1118 | over a whole session from counters in step, with any payloads and an acknowledgement number per frame, the payloads are handed on in order, each frame is acknowledged with its successor's number, and the counters are in step again |
| `AshStream.DeskHandsOnAll` | pkg/zigbee-dongle/ember/controller.go:1061-1118 | every frame that payloads stand for is handed on once and in order, to a waiting command or to the callbacks |
| `AshStream.AnsweredOnce` | pkg/zigbee-dongle/ember/controller.go:1080-1118 | over any frames a waiting command is answered at most once: per sequence, answers and waiting commands are conserved |
| `AshStream.CommandsMeant` | pkg/zigbee-dongle/ember/ezsp_frame.go:166-177 | commands sent in the extended format come out as they are |
| `AshStream.Receiver.HandleFrame` | pkg/zigbee-dongle/ember/controller.go:995-1164 | the object handles a frame as the step function does: CRC gate, counters, acknowledgement, routing to waiting commands, retransmission and reset |
| `Ezsp.ExtendedRoundTrip` | pkg/zigbee-dongle/ember/ezsp_frame.go:134-177 | every command frame survives extended serialization, detection and parsing |
| `Ezsp.LegacyRoundTripExact` | pkg/zigbee-dongle/ember/ezsp_frame.go:117-160 | a frame with an 8-bit id survives the legacy path through the detector iff it is shorter than five bytes or the low two bits of its id are not 01 |
| `Ezsp.HeaderBytes` | pkg/zigbee-dongle/ember/ezsp_frame.go:117-177 | both headers byte by byte, and a response read back |
| `Scf.NumRoundTrip` | pkg/zigbee-dongle/scf/scf.go:153-182 | every integer of every width comes back, its sign included |
| `Scf.WordRoundTrip` | pkg/zigbee-dongle/scf/scf.go:310-341 | every word of the right length is the image of exactly the number it is read as |
| `Scf.WireNumber` | pkg/zigbee-dongle/scf/scf.go:153-182 | a number takes 1, 2, 4 or 8 bytes by width, byte i being (x / 256^i) % 256 |
| `Scf.RangeTable` | pkg/zigbee-dongle/scf/scf.go:4-10 | the ranges of the eight integer kinds |
| `Scf.WireSlice` | pkg/zigbee-dongle/scf/scf.go:80-151 | a slice is its count, at most 255, then element j at offset 1 + width * j |
| `Scf.SerializeCons` | pkg/zigbee-dongle/scf/scf.go:75-186 | fields are written in declaration order without padding |
| `Scf.RoundTrip` | pkg/zigbee-dongle/scf/scf.go:75-345 | parsing a serialization followed by anything gives the value and leaves the rest; slices over 255 come back as their first 255 elements |
| `Scf.ParseExact` | pkg/zigbee-dongle/scf/scf.go:202-345 | whatever was parsed is well typed and its serialization is exactly what was consumed |
| `Scf.PrefixFree` | pkg/zigbee-dongle/scf/scf.go:75-186 | per schema, serialization is injective up to truncation and no serialization is a proper prefix of another |
| `Scf.PanicExact` | pkg/zigbee-dongle/scf/scf.go:207-305 | parsing goes out of range iff the input is a serialization of the fields before some slice followed by a count that announces more elements than follow yet few enough to pass the guard |
| `Scf.TruncatedInputPanics` | pkg/zigbee-dongle/scf/scf.go:223-226 | a truncated 16-bit slice that is not rejected |
| `Scf.ByteSlicesNeverSlip` | pkg/zigbee-dongle/scf/scf.go:218-221 | for one-byte elements the guard is exact |
| `Scf.CorrectedGuard` | pkg/zigbee-dongle/scf/scf.go:223-236 | with the guard the right way round parsing never goes out of range and otherwise agrees with the code |
| `Scf.AcceptsExactly` | pkg/zigbee-dongle/scf/scf.go:202-345 | with it, input is accepted iff it starts with the serialization of some value |
| `Scf.SerializeValue` | pkg/zigbee-dongle/scf/scf.go:75-186 | the serializer's loops compute the serialization |
| `Scf.ParseValue` | pkg/zigbee-dongle/scf/scf.go:202-345 | the parser's loops compute the parse, with the guard as the code has it |
| `ZoneFlush.RenderInjective` | pkg/iot/zone.go:160-179 | comparing the cached strings of one kind is comparing the values |
| `ZoneFlush.FlushReaches` | pkg/iot/zone.go:429-789 | after a flush that returned nil every selected actuator holds the desired values, sent or suppressed; after an error every one whose call did not fail; nothing else moved |
| `ZoneFlush.OnZoneHolds` | pkg/iot/zone.go:512-564 | after a nil flush of a zone that is on or on a timer, selected devices are on, lights at its level, colour lights at its mireds, to half a step; nothing else moved |
| `ZoneFlush.OffZoneHolds` | pkg/iot/zone.go:566-615 | after a nil flush of a zone that is off, selected devices are off and nothing else moved |
| `ZoneFlush.ColorZoneHolds` | pkg/iot/zone.go:741-789 | after a nil flush of a zone with a colour, colour lights show it and lights are at its level |
| `ZoneFlush.RandomZoneHolds` | pkg/iot/zone.go:791-830 | after a flush with random colours each colour light shows what was picked for it unless its call failed |
| `ZoneFlush.FreshZoneSendsNothing` | pkg/iot/zone.go:450-454 | a zone without a state becomes off and sends nothing |
| `ZoneFlush.RunSound` | pkg/iot/zone.go:160-179 | in every state reached without random colours each cached record is what the device holds |
| `ZoneFlush.CacheInvisible` | pkg/iot/zone.go:429-789 | over whole runs the devices hold what they would hold if every call were sent |
| `ZoneFlush.DriftCorrected` | pkg/iot/zone.go:160-171 | whatever the devices hold, after a nil flush a selected actuator holds the desired value iff it held it before or its record is stale or of another value |
| `ZoneFlush.DriftCorrectedAfterRefreshAge` | pkg/iot/zone.go:160-171 | a drifted actuator is set right by the first nil flush that looks `refreshAge` or more after its record, and by none that looks earlier and wants the same |
| `ZoneFlush.ColorAfterRandom` | pkg/iot/zone.go:741-830 | after any number of random flushes, a light misses a colour that is asked for iff the last random colour that reached it is another one while a record of the colour is fresh |
| `ZoneFlush.RandomColorSticks` | pkg/iot/zone.go:791-830 | a lamp that stays on its random colour while the flush returns nil |
| `ZoneDevices.OrderIrrelevant` | pkg/iot/zone.go:512-830 | whatever order a device map is walked in, a handler loop does the same to the devices and reports the same |
| `ZoneDevices.Zone.Handle` | pkg/iot/zone.go:512-789 | a cached handler loop is one pass: check, call, record |
| `ZoneDevices.Zone.HandleRandomColor` | pkg/iot/zone.go:791-830 | the loop that neither checks nor records |
| `ZoneDevices.Zone.Flush` | pkg/iot/zone.go:429-507 | the object flushes as the step function does; a zone without a name refuses |
| `ZoneDevices.Zone.SetDevice` | pkg/iot/zone.go:209-241 | a device without a handler, name or type is refused, a known one changes its type |
| `Canonical.NearestBrightness` | pkg/iot/canonical.go:63-82 | the search loop finds the step of least distance, the earlier one on a tie, and none for values that are not positive |
| `Canonical.NearestColorTemp` | pkg/iot/canonical.go:95-111 | the search loop finds the step of least Kelvin distance, the earlier one on a tie, and none for values that are not positive |
| `Canonical.NearestOfCanonical` | pkg/iot/canonical.go:54-111 | the nearest step of a canonical value is the step itself |
| `Canonical.BrightnessPathsAgree` | pkg/iot/zone.go:686-700 | the continuous value sends the device what the older table sends |
| `Canonical.ColorTempPathsAgree` | pkg/iot/zone.go:627-637 | for colour temperatures the two agree iff the step is not LateAfternoon |
| `Circadian.StableSort` | modules/conditioner/computer/circadian.go:149-149 | sorting in place gives the one arrangement in time order that keeps equal times in declared order |
| `Circadian.StableSortUnique` | modules/conditioner/computer/circadian.go:143-149 | there is only one such arrangement |
| `Circadian.KelvinFor` | modules/conditioner/computer/circadian.go:127-174 | sorting and searching compute the curve; a segment that is used has a length |
| `Circadian.EnvelopeExact` | modules/conditioner/computer/circadian.go:151-154 | a day has a value exactly from its first to its last anchor, for every sunrise and sunset |
| `Circadian.CurveBetweenNeighbours` | modules/conditioner/computer/circadian.go:155-173 | inside, the value before bias lies on the line between the two neighbouring anchors in time order |
| `Circadian.AnchorExact` | modules/conditioner/computer/circadian.go:127-174 | at an anchor's time the curve has its value, of several at one time that of the one declared last |
| `Circadian.DistinctAnchorExact` | modules/conditioner/computer/circadian.go:127-174 | an anchor that shares its time with no other has exactly its own value there |
| `Circadian.DayCurve` | modules/conditioner/computer/circadian.go:112-142 | the eight values of a day longer than four hours, at their times |
| `Circadian.ClampExact` | modules/conditioner/computer/circadian.go:209-217 | clamping into 1500..10000 |
| `Circadian.TodayThenYesterday` | modules/conditioner/computer/circadian.go:82-96 | today's envelope decides, then yesterday's, and outside both it is night |
| `Circadian.BiasExact` | modules/conditioner/computer/circadian.go:169-173 | for all 32-bit parameters the result is the clamped sum of curve and bias iff the sum does not wrap into range |
| `Circadian.NightFloorExact` | modules/conditioner/computer/circadian.go:94-95 | the same iff for the night floor |
| `Circadian.BiasWraps` | modules/conditioner/computer/circadian.go:169-173 | a bias that turns the coolest value of the day into the warmest |
| `Circadian.ComputeKelvin` | modules/conditioner/computer/circadian.go:76-96 | today, then yesterday, then the night floor; always between 1500 and 10000 |
| `Fade.EnvelopeMonotone` | modules/conditioner/computer/fade.go:217-248 | brightness and Kelvin move monotonically from start to target and never leave the interval between them |
| `Fade.BrightnessLinear` | modules/conditioner/computer/fade.go:217-237 | of the brightness way as much is covered as has passed of the time |
| `Fade.KelvinLinear` | modules/conditioner/computer/fade.go:239-248 | so is the Kelvin way, to the half that rounding may move it |
| `Fade.InterpolatedExact` | modules/conditioner/computer/fade.go:217-261 | a tick shows both envelopes, named by their nearest steps, and the end state from the end on |
| `Fade.SeedStartsFromZone` | modules/conditioner/computer/fade.go:370-394 | a fade starts from its pinned value, or else from what the zone shows at its seed |
| `Fade.EnvelopeEnds` | modules/conditioner/computer/fade.go:217-261 | at its seed an envelope is at its start, from its terminal tick on exactly at its target |
| `Fade.TerminalYieldsTarget` | modules/conditioner/computer/fade.go:250-261 | whatever it was seeded from, the terminal tick yields the target and the terminal state |
| `Fade.FadeFitsInt32` | modules/conditioner/computer/fade.go:240-248 | with non-negative 32-bit Kelvin no 32-bit step overflows |
| `Fade.EventLifecycle` | modules/conditioner/computer/fade.go:202-261 | over any ticks each yields what seed and time alone determine until one ends the envelope; then the snapshot is gone and every tick is empty |
| `Fade.ReseedStartsOver` | modules/conditioner/computer/fade_snapshots.go:61-84 | setting a snapshot again leaves no trace of the ticks and deletions before |
| `Fade.WindowLifecycle` | modules/conditioner/computer/fade.go:168-200 | over any ticks in time order, every one inside the window yields what the first inside tick seeded and the time alone determine, every other is empty, and once the end is reached no snapshot is left |
| `Fade.StaleSnapshotEndsAtOnce` | modules/conditioner/computer/fade.go:181-197 | a snapshot left over from an ended envelope makes the next tick yield the target at once, and is removed iff condition and zone are named |
| `Fade.NextWindowExact` | modules/conditioner/computer/fade.go:168-200 | whatever ticks came in between, the next window is seeded afresh iff condition and zone are named and some tick fell at or after the end of the last window; otherwise its first tick jumps to the target |
| `Fade.FadeComputer.Interpolate` | modules/conditioner/computer/fade.go:217-261 | the object's tick with a snapshot: values, and deletion at progress one |
| `Fade.FadeComputer.ComputeWindow` | modules/conditioner/computer/fade.go:168-200 | the object's window tick: drop outside, seed or fetch inside |
| `Fade.FadeComputer.ComputeEvent` | modules/conditioner/computer/fade.go:202-213 | the object's event tick: empty without a seed |

## Left out

- DebounceProgress.NoLostFire: takes whole calls as steps and the Bindings and device as unchanged; between the lock-sized steps of one call another event can intervene, for which only the safety results in `Debounce` are claimed. A callback whose Binding list fails loses its fire.
- DebounceProgress.DeliveryDispatches: the same steps.
- ReconcilerRuns.TtlWakeup: takes a push and the arming of its timer as one step; `CrossedPushesExact` and `CrossedPassExact` say when crossed pushes of one source keep the wakeup.
- Reconciler.SuppressionInvisible: assumes the reconciler is the zone's only writer, computers that are functions of time and arguments, and failures without effect; `FailedApplyExact` says what the last one costs. Fade's snapshot deletion therefore stays outside the stack results.
- ActivationStack.CompactionInvisible: assumes that an id always pushes the same computer, arguments and priority.
- ZoneFlush.CacheInvisible: excludes random colours and outside drift; `ColorAfterRandom` and `DriftCorrected` cover those.
- ZoneDevices.Zone.SetDevice: compares device names exactly, without case folding.
- AshStream.Receiver.HandleFrame: what a fulfilled command or a callback does with its frame is left out, and so are failures of the port.
- Fade.FadeComputer.ComputeWindow: takes the window's start on the current day as given; time zones and the parsing of `start_at` are left out.
- Reconciler status patches, their debounce, metrics and top-change logging: observation only.
- Activations shared by pointer between caller and stack: entries are values.
- `IncrementBrightness` and `DecrementBrightness`: they step the discrete value only.
- Parsing of computer arguments, the cron scheduler, scenes' lookup, sunrise computation: plumbing or outside libraries.
- RST and RSTACK frame builders, boot sniffing, serial port handling, network formation: device I/O.
- Partial writes into the struct when SCF parsing fails, and panics for unsupported field types: the schema has supported types only.
- Saturation of `time.Sub` beyond 292 years, and floating-point rounding.
- Kubernetes, gRPC, MQTT and HTTP clients, the router, the harvester, weather, `pkg/zcl`: plumbing or easy members.
