# Verified models of the platform layer

These Dafny files model the state machines and in-place algorithms of the `platform/` directory and prove what
each of them promises. Check everything with `dafny verify dfyconfig.toml`.

| file | what it models |
|---|---|
| `CameraGeometry`, `CameraSweep`, `CameraSearch` | the rounded-lens camera sweep: swept separating axes, then a bounded interval search |
| `CameraResolver` | the spring-arm camera resolver and its release hold |
| `Agenda`, `EventQueue`, `PlayerRun`, `SequencePlayer`, `Retiming`, `TempoChange`, `VoiceMapping` | the delta-encoded event queue, the sequence player that edits it in place, its tempo change, and its voice map |
| `SpeechBacklog`, `SpeechWorker` | the speech drain worker: what the mutex protects, and every interleaving of the two threads |
| `AudioRing`, `RingProtocol` | the PCM ring: whole pushes and pulls with overflow, and every interleaving of single-sample steps without it |
| `TrackBytes`, `SequenceMerge`, `SequenceReader`, `TrackSpelling` | the compressed sequence reader: back-references, variable-length numbers, the sixteen-way merge, and songs written and played |
| `VoiceLists`, `SynthVoices` | the synthesiser's voice lists, stealing and parameter pool |
| `ConfigGrammar`, `ConfigSpelling`, `ConfigIni` | the INI reader and writer, line by line, and exactly when they are inverse |
| `AssetSwap` | two byte-order repairs with data-dependent layouts |
| `QueueController` | the audio latency controller in closed loop |
| `DevCommand` | the console's edit distance and suggestion |
| `Words`, `Wrappers` | 32-bit arithmetic and an option type |

Conventions that hold throughout:

- Code that updates objects is a class or an array with methods; each method's contract ties the new state to a
  function of the old one, and the properties are lemmas about those functions or invariants every method keeps.
  The event queue, the voice map and the synthesiser's voice lists are modelled node by node, with their link
  pointers.
- The camera works over `real`. A square root is a parameter that squares back to its argument. The stationary
  lens/triangle test is an oracle (`CameraSearch.Tester`): it reports a clearance that the lens and triangle
  really keep, a contact within skin plus tolerance, or nothing.
- The two concurrent protocols are state machines. A run is any sequence of enabled steps, so the theorems about
  runs are about every interleaving; memory is sequentially consistent between a publish and its observation.
- `CameraSearch` needs more than its answer to be right: `SweepInvalid` is returned only for a listed reason, and
  `SweepClear` must be reached whenever every probe has room to spare, so that a search that gave up for want of
  tests would not meet its contract.
- A function that both a method and its contract use is tied down by a lemma of its own that states, in numbers
  and without that function, what it comes to. Most of them are named `...Spelled`.

Where the code and its own comments disagree, the code is modelled:

- The header of the INI writer promises that everything written reloads as itself. It does not: keys such as
  `s.#x` and `a]b.c` pass the guard. `ConfigGrammar.ReloadsExactly` gives the exact condition.
- `voiceLimit` 255 never binds, because the count of mapped voices is eight bits wide
  (`VoiceMapping.MapNotes`, `VoiceMapping.LimitNeverBinds`).
- A tempo change moves note-offs where it should, and in order, only while rescaled times fit in 32 bits
  (`Retiming.TempoChange`, `Retiming.WrappedProductReorders`). A product whose top bit is set puts a note-off
  behind the clock, which then runs back (`PlayerRun.StepKeepsOrder`, `PlayerRun.TopBitRunsBack`).
- A physical voice can be lost: it stays allocated for nobody if its owner asks for a voice again without giving
  it back, or gives it back while it is stolen and has no filter (`SynthVoices.Synth.AllocVoice`,
  `SynthVoices.Synth.FreeVoice`).
- The sequence reader reads one more variable-length number after the end event of the last track to end; that
  track is required to have one there.

## Model

| member | source | states |
|---|---|---|
| CameraGeometry.CauchySchwarz | platform/camera_obstruction.c:866-977 | the inequality behind every axis test: a projection is at most length times length |
| CameraGeometry.SumAtLeast | platform/camera_obstruction.c:1375-1381 | the reverse triangle inequality, which makes clearance change no faster than the eye moves |
| CameraGeometry.MixAtMost | platform/camera_obstruction.c:1375-1381 | a convex combination of two short gaps is short |
| CameraGeometry.AxisBound | platform/camera_obstruction.c:908-950 | a gap that reaches d along an axis is at least d long |
| CameraGeometry.BlendMix | platform/camera_obstruction.c:712-732 | points of a convex hull mix to points of the hull |
| CameraGeometry.BlendWithin | platform/camera_obstruction.c:913-929 | a whole hull projects inside the interval its corners project to |
| CameraGeometry.BlendThree | platform/camera_obstruction.c:712-732 | a point of a triangle is the weighted sum of its corners |
| CameraGeometry.RightHanded | platform/camera_obstruction.c:755-796 | which way the cross product points |
| CameraSweep.NearPlane | platform/camera_obstruction.c:712-732 | the camera sees the four lens corners at the near distance, half the width to either side and half the height up and down, in order; the fifth is the eye |
| CameraSweep.ContactWithin | platform/camera_obstruction.c:1220-1221 | contact is coming within the skin and a billionth of one, or of the size of the lens if that is more |
| CameraSweep.ClearMeans | platform/camera_obstruction.c:1375-1381 | clear is further apart than the skin |
| CameraSweep.SmallestNormal | platform/camera_obstruction.c:1639 | the smallest normal double is two to the minus 1022 |
| CameraSweep.GapMoves | platform/camera_obstruction.c:860-865 | moving the eye moves every lens point alike, so the gap at one time is the gap at another plus the travel between |
| CameraSweep.Lipschitz | platform/camera_obstruction.c:1375-1381 | separation by r at one time is separation by r minus the distance travelled at another |
| CameraSweep.ContactConvex | platform/camera_obstruction.c:1382-1567 | contact times form an interval |
| CameraSweep.NoEarlierContact | platform/camera_obstruction.c:1430-1465 | clear now and in contact later means clear at every earlier time |
| CameraSweep.IntervalClear | platform/camera_obstruction.c:1474-1487 | endpoint clearances whose sum exceeds the travel between prove every time in the interval clear, by half of what is over |
| CameraSweep.AxesAreNormals | platform/camera_obstruction.c:755-796 | each candidate axis is perpendicular to the lens face, triangle or edge pair it stands for |
| CameraSweep.AxesSpelled | platform/camera_obstruction.c:755-796 | the 31 axes: the eye and each two neighbouring corners, both halves of the near plane, the triangle, and each lens edge with each triangle edge |
| CameraSweep.LensTriangleAxes | platform/camera_obstruction.c:755-796 | the array holds exactly the 31 axes, faces then triangle then edge pairs |
| CameraSweep.Project | platform/camera_obstruction.c:911-929 | the loop finds the attained extent of a hull along an axis |
| CameraSweep.AxisSeparates | platform/camera_obstruction.c:841-846 | hulls whose projections are d apart along an axis are d apart in space |
| CameraSweep.AxisWindow | platform/camera_obstruction.c:953-962 | the two quotients, in order, bound exactly the times at which two moving extents meet, for either sign of the velocity |
| CameraSweep.NarrowByAxis | platform/camera_obstruction.c:897-971 | one axis keeps every time outside the window clear, no time left inside it is parted by that axis, and an axis crossed too slowly to time that parts them for good rules contact out |
| CameraSweep.OrdinaryAxisBounds | platform/camera_obstruction.c:911-945 | every axis but the faintest, and every crossing but the slowest, bounds the window |
| CameraSweep.SweptInterval | platform/camera_obstruction.c:866-977 | everything outside the window has positive clearance, none of the 31 axes separates any time inside it or parts lens and triangle for good, and no window means clear throughout |
| CameraSearch.Tester.Test | platform/camera_obstruction.c:1348-1366 | a profiled test beyond its limit answers invalid and counts nothing |
| CameraSearch.Bisect | platform/camera_obstruction.c:1430-1465 | sixteen halvings leave a real, probed contact with every time more than a 65536th of the bracket before it clear |
| CameraSearch.BoundedIntervalSweep | platform/camera_obstruction.c:1382-1567 | CLEAR is clearance above the uncertainty over the whole window, and is reached with two tests for each of up to 48 parts when every probe clears by what the eye travels in half a part on top; a hit is real, with everything clear up to the last 65536th of the very interval that was bisected, clear at its low end and probed as a hit at its high end; an exhausted budget is never CLEAR; invalid only for a listed reason; at most 96 plus 16 probes |
| CameraSearch.SearchIntervals | platform/camera_obstruction.c:1471-1567 | the stack of intervals, earliest on top: the same promises once the far end has been probed |
| CameraSearch.PacedSplit | platform/camera_obstruction.c:1478-1500 | an interval that is not accepted is longer than a part, so that two tests a part are never used up |
| CameraSearch.AmpleExactly | platform/camera_obstruction.c:1474-1487 | what it takes for CLEAR, in numbers |
| CameraSearch.StandingClear | platform/camera_obstruction.c:1636-1638 | an eye that barely travels and is clear once is clear for the whole move |
| CameraSearch.SweepTriangle | platform/camera_obstruction.c:1575-1647 | CLEAR is positive clearance at every time in 0..1, and by more than a billionth of max(1, radius, travel) inside the window; it is the answer when the window is missed, and whenever the window has a width and every probe in it clears by that billionth and the travel in half of one of n <= 48 parts, with at most 2n tests; a hit is a real overlap with every earlier time clear but for a 65536th of the interval bisected, whose high end was probed as a hit, or exactly the entry of the window; invalid only for a listed reason, a profiled run only once its budget is spent |
| CameraResolver.Slot.Resolve | platform/camera_obstruction_resolver.c:106-362 | the in-place step leaves the slot and answers as the functional step of the lemmas below |
| CameraResolver.ChooseAnchor | platform/camera_obstruction_resolver.c:182-221 | the anchor is the first of caller's eye, last safe eye and pivot that sweeps clear where it stands |
| CameraResolver.MakePlan | platform/camera_obstruction_resolver.c:253-313 | contact retracts and latches, a latched clear tick holds until served, otherwise expansion is bounded |
| CameraResolver.AnchorSpelled | platform/camera_obstruction_resolver.c:182-221 | which eyes are swept for an anchor, with which radius, and in which order |
| CameraResolver.MoveSpelled | platform/camera_obstruction_resolver.c:253-335 | where an accepted eye is: on the straight way from its anchor to desired, at the contact less the skin, or still for the hold, or exactly as far as speed times time, one step or the way allows; and how that is reported and latched |
| CameraResolver.RejectedSpelled | platform/camera_obstruction_resolver.c:106-252 | what a step that accepts nothing answers, why it is INVALID or FAILSAFE, and what a teleport forgets |
| CameraResolver.AcceptedIsSwept | platform/camera_obstruction_resolver.c:315-335 | an accepted eye was swept clear at that pose and is the new last safe eye |
| CameraResolver.RejectedKeepsState | platform/camera_obstruction_resolver.c:167-177 | a step that accepts nothing changes neither the last safe eye nor the hold, but for a discontinuity |
| CameraResolver.ExpansionBounded | platform/camera_obstruction_resolver.c:290-306 | an unblocked step moves the eye at most speed times time and at most one step |
| CameraResolver.RetractionKeepsSkin | platform/camera_obstruction_resolver.c:253-265 | a contact retracts this very tick, short of the contact by the clearance skin or to the anchor, and restarts the hold |
| CameraResolver.HoldLasts | platform/camera_obstruction_resolver.c:266-289 | over any run after a contact the eye stays at its anchor until enough accepted positive-time clear ticks; rejected and timeless ticks do not count |
| CameraResolver.HoldEnds | platform/camera_obstruction_resolver.c:273-277 | the tick that completes the hold releases it |
| Agenda.RemoveKeepsTimes | platform/audio_seqplayer.c:68-101 | taking a node out and adding its delta to its successor keeps every other due time |
| Agenda.InsertIsStable | platform/audio_event_queue.c:354-402 | splitting a delta at the insertion point is a stable insertion by due time |
| Agenda.StableInsertSorted | platform/audio_event_queue.c:375-398 | a post keeps the due list sorted |
| Agenda.PopTimeline | platform/audio_event_queue.c:320-352 | taking the first node out counts every other due time from its time on |
| Agenda.FilterKeeps | platform/audio_event_queue.c:426-455 | filtering keeps exactly the matching events, each at its time, in their order |
| AudioEventQueue.AlLink | platform/audio_event_queue.c:267-280 | the four link writes put an element behind another |
| AudioEventQueue.AlUnlink | platform/audio_event_queue.c:282-294 | the neighbours of an element are joined and nothing else changes |
| AudioEventQueue.LinkAt | platform/audio_event_queue.c:267-280 | linking an outside node into a well-linked chain gives the chain with it at that place |
| AudioEventQueue.UnlinkAt | platform/audio_event_queue.c:282-294 | unlinking a chained node gives the chain without it, still well linked |
| AudioEventQueue.SlotPlaces | platform/audio_event_queue.c:375-398 | the remaining delta at the slot of the insertion walk is what a stable insertion needs |
| AudioEventQueue.EventQueue.constructor | platform/audio_event_queue.c:296-318 | a new queue has nothing due and all nodes free |
| AudioEventQueue.EventQueue.EveryNodeInOneList | platform/audio_event_queue.c:296-318 | each node is in exactly one of the two lists and occupancy is the length of the queue |
| AudioEventQueue.EventQueue.FindSlot | platform/audio_event_queue.c:375-390 | the walk stops at the last node not due later than the post, with the delta that is left there |
| AudioEventQueue.EventQueue.PostEvent | platform/audio_event_queue.c:354-402 | a post is dropped exactly when no node is free, and otherwise inserted stably at its time, or behind everything at the last time if the delay is 7fffffff hex |
| AudioEventQueue.EventQueue.NextEvent | platform/audio_event_queue.c:320-352 | the earliest event comes out with its delay and the others count from its time; an empty queue answers with an event of kind -1 |
| AudioEventQueue.EventQueue.NextOrHeartbeat | platform/audio_event_queue.c:457-470 | an empty queue still yields an event, after the frame time or else 16000 |
| AudioEventQueue.EventQueue.Recycle | platform/audio_event_queue.c:426-455 | a dropped node goes to the free list and survivors keep their due times |
| AudioEventQueue.EventQueue.Flush | platform/audio_event_queue.c:404-424 | nothing is due and every node is free |
| AudioEventQueue.EventQueue.FlushType | platform/audio_event_queue.c:426-455 | exactly the events of one kind are gone, the rest keep time and order |
| PlayerRun.StepKeepsBalance | platform/audio_cspplayer.c:1062-1070 | every accepted post, and every note-off put back at a new time, is dispatched, waiting, removed or taken out by a tempo change, in exactly one way |
| PlayerRun.StepSpelled | platform/audio_event_queue.c:354-402 | what a post asks for and a dispatch does, in numbers |
| PlayerRun.CountSpelled | platform/audio_cspplayer.c:1062-1070 | what the account counts: events, or events due at one time |
| PlayerRun.StepKeepsLaw | platform/audio_cspplayer.c:118-139 | only note-offs move, and only to their due time rescaled from the tempo change |
| PlayerRun.BalancedMeans | platform/audio_cspplayer.c:79-139 | no event is lost or doubled, note-offs included, and whatever no tempo change has moved keeps the time it was posted for |
| PlayerRun.StepKeepsOrder | platform/audio_cspplayer.c:1062-1070 | waiting events are never overdue and everything stays first in, first out among equal times, if and only if a tempo change turns no rescaled product negative |
| PlayerRun.FittingLooksAhead | platform/audio_cspplayer.c:122-128 | products that fit in 32 bits are never negative |
| PlayerRun.RunInvariant | platform/audio_cspplayer.c:923-1071 | over every run of posts, turns, removals, flushes and tempo changes the account balances, and the order holds throughout if and only if every tempo change looks ahead |
| PlayerRun.DispatchedOnTimeInOrder | platform/audio_cspplayer.c:923-1071 | in every run, tempo changes included, an event no tempo change has moved is dispatched exactly when the clock reads post time plus delay, unless it was removed; only note-offs move, each to its rescaled time; dispatches come in time order, first in, first out among equal times but for moved note-offs, as long as no rescaled product turns negative, and only then is nothing ever overdue |
| PlayerRun.TopBitRunsBack | platform/audio_cspplayer.c:122-128 | a run whose tempo change sets the top bit of a product, and leaves a note-off due behind the clock |
| SequencePlayer.RemoveEventForVoice | platform/audio_seqplayer.c:68-101 | of kind 6, envelopes, or 5, note ends, exactly the events that name the voice are gone; of any other kind none; the rest keep time and order |
| SequencePlayer.VoiceEventsGone | platform/audio_seqplayer.c:80-101 | the same of any due list |
| SequencePlayer.StopOsc | platform/audio_seqplayer.c:511-541 | the events of kinds 22 and 23 of one voice state are gone and all others stay, and the stop callback sees their states once each, in order |
| SequencePlayer.OscillatorsGone | platform/audio_seqplayer.c:511-541 | the same of any due list |
| SequencePlayer.StopCallsAre | platform/audio_seqplayer.c:511-541 | the states handed to the stop callback are those of the events taken, in order |
| SequencePlayer.VoiceNeedsNoteKill | platform/audio_seqplayer.c:393-428 | the first event of kind 5 of the voice decides: due by the kill time it stays and the answer is no, later it is removed |
| SequencePlayer.Player.Post | platform/audio_event_queue.c:354-402 | a post to the delta list is a post to the absolute-time run |
| SequencePlayer.Player.Next | platform/audio_cspplayer.c:1062-1070 | the clock moves to the due time of the event dispatched, as in the absolute-time run, or by the frame time or 16000 if there is none |
| SequencePlayer.Player.FlushType | platform/audio_event_queue.c:426-455 | a flush by kind is a removal in the absolute-time run, of exactly the events of that kind |
| SequencePlayer.Player.RemoveForVoice | platform/audio_seqplayer.c:68-101 | a removal for a voice is a removal in the absolute-time run, of exactly its events of kind 6 or 5 and of none of any other kind |
| SequencePlayer.Player.StopOscillators | platform/audio_seqplayer.c:511-541 | stopping oscillators is a removal in the absolute-time run, of exactly the events of kinds 22 and 23 of the voice state |
| SequencePlayer.Player.NeedsNoteKill | platform/audio_seqplayer.c:393-428 | a note kill removes the first note-end of the voice from the absolute-time run, exactly when it is due after the kill time |
| SequencePlayer.Player.Flush | platform/audio_event_queue.c:404-424 | a flush empties the absolute-time run |
| SequencePlayer.Player.HandleTempo | platform/audio_cspplayer.c:79-139 | a tempo change on the delta list is the tempo change of the absolute-time run |
| SequencePlayer.Player.KeepsTime | platform/audio_cspplayer.c:923-1071 | whatever has been done to a player, its queue and clock are those of the absolute-time run of it, so nothing queued is overdue and everything is in order while no rescaled product turned negative |
| Retiming.OthersUntouched | platform/audio_cspplayer.c:94-139 | a tempo change leaves every event that is not a note-off at its time and in its order |
| Retiming.RetimeShift | platform/audio_cspplayer.c:94-139 | a tempo change does the same to due times counted from anywhere |
| Retiming.RescaleKeepsOrder | platform/audio_cspplayer.c:122-128 | within 32 bits rescaling is exact and keeps times sorted |
| Retiming.RescaledSpelled | platform/audio_cspplayer.c:122-128 | note-offs are the events of kind 21; a time is rescaled to whole old ticks times the new length, for times ahead and behind |
| Retiming.TempoChange | platform/audio_cspplayer.c:79-139 | no event is lost and the others stay put; every note-off at A moves to (A / old) * new, all in their old order and ties included, if and only if every such product is a signed 32-bit value |
| Retiming.WrappedProductReorders | platform/audio_cspplayer.c:122-128 | beyond that the product wraps and two note-offs change places |
| TempoChange.Repost | platform/audio_seqplayer.c:103-137 | a deferred node goes back in stably at its own time |
| TempoChange.DeferNoteOffs | platform/audio_cspplayer.c:94-117 | all note-offs come out in order with their absolute times, the rest keep theirs |
| TempoChange.RepostNoteOffs | platform/audio_cspplayer.c:118-139 | they go back one by one at their rescaled times |
| TempoChange.HandleTempo | platform/audio_cspplayer.c:79-139 | on the linked nodes a tempo change computes exactly the re-timed list, with both lists well linked and no node lost |
| VoiceMapping.VoiceMap.constructor | platform/audio_cspplayer.c:1108-1112 | every voice state is free, in reverse order, and the count is zero |
| VoiceMapping.VoiceMap.MapVoice | platform/audio_seqplayer.c:139-176 | a note over the limit or without a free state is refused, otherwise a free state is mapped at the end and counted; the count stays that of the list unless it is 255 and the limit too |
| VoiceMapping.VoiceMap.UnmapVoice | platform/audio_seqplayer.c:178-209 | a mapped state is cut out of the mapped list and freed, nothing else moves, and an exact count stays exact |
| VoiceMapping.MapNotes | platform/audio_seqplayer.c:139-176 | with a limit below 255 a player maps at most one note more than the limit and counts them exactly; with a limit of 255 it maps all it has states for and the count is taken modulo 256 |
| VoiceMapping.LimitNeverBinds | platform/audio_seqplayer.c:139-176 | under a limit of 255 the 256th note leaves a count of zero and the 257th is mapped too |
| SpeechBacklog.Backlog.Push | platform/a11y_speech_worker.c:146-164 | afterwards the ring holds the newest eight of what it held and the new line; a line given up is the oldest, and is counted |
| SpeechBacklog.Backlog.Discard | platform/a11y_speech_worker.c:182-188 | the queue is emptied and the generation bumped, modulo 2^32 |
| SpeechBacklog.Backlog.Take | platform/a11y_speech_worker.c:308-324 | the worker gets the oldest line and the generation of that moment |
| SpeechBacklog.Backlog.Recheck | platform/a11y_speech_worker.c:338-352 | a line is cancelled and counted exactly when the generation moved |
| SpeechBacklog.Backlog.RequestQuit | platform/a11y_speech_worker.c:471-481 | quit is set and the backlog stamped away in one critical section |
| SpeechBacklog.Backlog.Restart | platform/a11y_speech_worker.c:404-431 | a restart empties the queue and never resets the generation |
| SpeechWorker.StepKeepsOrder | platform/a11y_speech_worker.c:303-359 | lines begun, held and queued stay in push order, so each is spoken at most once |
| SpeechWorker.StepKeepsBalance | platform/a11y_speech_worker.c:146-188 | pushed lines are spoken, dropped, thrown away, queued or in hand |
| SpeechWorker.StepKeepsStamp | platform/a11y_speech_worker.c:182-188 | stamp and counters are the true counts modulo 2^32, and the speaking flag is the worker's hand |
| SpeechWorker.StepKeepsWakeup | platform/a11y_speech_worker.c:308-314 | a sleeping worker with a line queued or quit set is still owed a signal or broadcast |
| SpeechWorker.StepKeepsUpToDate | platform/a11y_speech_worker.c:146-164 | the waiting lines are always the newest, without a gap, and the last one pushed is the last of them |
| SpeechWorker.PushesKeepNewest | platform/a11y_speech_worker.c:146-164 | after any run of pushes the ring holds the newest eight of what it held and what was pushed |
| SpeechWorker.InitialInvariant | platform/a11y_speech_worker.c:404-431 | all of that holds when the service starts |
| SpeechWorker.RunKeepsInvariant | platform/a11y_speech_worker.c:285-361 | and in every interleaving |
| SpeechWorker.RecheckExact | platform/a11y_speech_worker.c:338-352 | the re-check passes exactly when the number of discards since the pop is a multiple of 2^32 |
| SpeechWorker.StepKeepsCutOff | platform/a11y_speech_worker.c:190-236 | what a barge-in has cut off stays cut off, one step at a time |
| SpeechWorker.BargeIn | platform/a11y_speech_worker.c:190-236 | in every interleaving after a barge-in no line pushed before it begins, but at most the one already past its re-check, once |
| SpeechWorker.ResidualWindow | platform/a11y_speech_worker.c:210-219 | that one line really does get through, past a purge and past a reap |
| SpeechWorker.WindowIsReached | platform/a11y_speech_worker.c:210-219 | a run from the start reaches that window and begins the line after the barge-in |
| SpeechWorker.ReapLetsOneThrough | platform/a11y_speech_worker.c:471-495 | after the reaping critical section at most one more line begins, and only if one was past its re-check |
| SpeechWorker.FreeMeansNothingMissed | platform/a11y_speech_worker.c:146-164 | with nothing owed, a worker asleep has nothing to wake for |
| SpeechWorker.JoinEnds | platform/a11y_speech_worker.c:489-495 | while joining the worker is never asleep, can always step, and each step brings its exit closer |
| SpeechWorker.IdleIsSilence | platform/a11y_speech_worker.c:166-173 | idle means nothing queued and nothing in the worker's hand |
| AudioRing.RoundUpPow2 | platform/audio_ring.c:12-18 | the least power of two that is large enough |
| AudioRing.CapacityFits | platform/audio_ring.c:20-45 | every capacity divides 2^32, so masking respects the wrap of the indices |
| AudioRing.HoldsAppend | platform/audio_ring.c:131-138 | writing a frame keeps the last capacity frames in their slots |
| AudioRing.RampBetween | platform/audio_ring.c:265-275 | a faded sample lies between the ramp's origin and the incoming sample, under truncating division |
| AudioRing.RampEnds | platform/audio_ring.c:265-275 | the last step of a ramp is the incoming sample |
| AudioRing.RampStarts | platform/audio_ring.c:265-275 | the first step moves at most a 128th of the way, rounded up |
| AudioRing.RampExact | platform/audio_ring.c:265-275 | after k of 128 steps a ramp is k 128ths of the way, rounded toward zero |
| AudioRing.RampStep | platform/audio_ring.c:265-275 | no step turns back, or moves more than a 128th of the way and one |
| AudioRing.EmitSpelled | platform/audio_ring.c:220-281 | one output frame: when the ramp starts and from what, and which counters move |
| AudioRing.EmittedBetween | platform/audio_ring.c:220-281 | every output frame lies between origin and signal, and is the signal when no ramp runs |
| AudioRing.EdgesStartFromLast | platform/audio_ring.c:232-262 | going dry and coming back both ramp from the sample heard last |
| AudioRing.RampRunsOut | platform/audio_ring.c:265-275 | with data throughout a ramp ends after its length and the signal then passes unchanged |
| AudioRing.CallbackSizeInvisible | platform/audio_ring.c:163-289 | two callbacks hear what one callback of both lengths would have heard |
| AudioRing.ServedSpelled | platform/audio_ring.c:163-289 | which frames a callback takes, what it counts, and that without a ramp they are heard as they are |
| AudioRing.Ring.Init | platform/audio_ring.c:20-45 | requests above 262144 are refused; otherwise an empty ring of the least power of two of at least 1024 frames |
| AudioRing.Ring.FillRaw | platform/audio_ring.c:74-83 | the wrapped difference of the indices is the unread count modulo 2^32 |
| AudioRing.Ring.Push | platform/audio_ring.c:92-154 | the block, or its end if it is longer than the ring, is appended to the stream; what is counted as lost is the surplus over the capacity, in 32-bit arithmetic, and a count that covered all losses still does unless this push alone loses 2^32 frames |
| AudioRing.PushCounts | platform/audio_ring.c:115-128 | however far behind the consumer is, by whole laps of 2^32 even, each push counts at least what it makes unreadable |
| AudioRing.ExcessIsSurplus | platform/audio_ring.c:109-128 | while the unread count fits, the producer counts exactly what the ring no longer holds |
| AudioRing.Ring.NeverUnderCounts | platform/audio_ring.c:115-128 | evicted frames cover everything clamped, skipped, lapped, or gone by the next pull |
| AudioRing.Ring.Copy | platform/audio_ring.c:131-143 | the copy loop appends its frames and publishes the new head |
| AudioRing.Ring.SkipOverwritten | platform/audio_ring.c:195-214 | the reader skips exactly what was overwritten, to head minus capacity, and arms the fade if primed |
| AudioRing.Ring.Output | platform/audio_ring.c:220-281 | one output frame and the concealment state after it |
| AudioRing.Ring.Read | platform/audio_ring.c:220-281 | the loop emits the stream from the tail on, then silence, through the ramp |
| AudioRing.Ring.CatchUp | platform/audio_ring.c:178-185 | a consumer that was lapped finds what it would find without the lap |
| AudioRing.Ring.Pull | platform/audio_ring.c:163-289 | a callback reads on from max(tail, head - capacity), with the tail taken modulo 2^32; pushed = pulled + skipped + lapped + fill |
| RingProtocol.StepFaithful | platform/audio_ring.c:115-145 | every single step of either side keeps the unread samples in place and the readers' output a prefix of the stream |
| RingProtocol.CopyStep | platform/audio_ring.c:131-138 | a producer's sample copy never touches an unread sample |
| RingProtocol.ReadStep | platform/audio_ring.c:225-231 | a consumer's sample copy reads the sample that was pushed there |
| RingProtocol.PushDelivers | platform/audio_ring.c:92-154 | a push sends its block, overruns exactly when it and the unread frames do not fit, and when published makes everything sent readable |
| RingProtocol.PullDelivers | platform/audio_ring.c:163-289 | a pull takes all it asks for, or all that was published when it looked |
| RingProtocol.ReadsArePushes | platform/audio_ring.c:178-231 | in every interleaving with room for each push, what is read is the start of what was pushed: nothing lost, repeated, torn or early |
| RingProtocol.DrainedIsEverything | platform/audio_ring.c:282-288 | a drained ring at rest has delivered everything |
| RingProtocol.NoSkipWithoutOverrun | platform/audio_ring.c:195-214 | the consumer never has to skip then |
| RingProtocol.FreshSpelled | platform/audio_ring.c:20-45 | a run starts with nothing pushed, nothing read and no overrun |
| TrackBytes.VarLenRoundTrip | platform/audio_sequence.c:39-55 | reading an encoded variable-length number below 2^32 gives it back and leaves what follows |
| TrackBytes.ShortestSpelling | platform/audio_sequence.c:39-55 | a number read takes at least as many bytes as its encoding: no spelling is shorter |
| TrackBytes.ParseShape | platform/audio_sequence.c:57-130 | a parsed track never goes back in time and has one end, at its end |
| TrackSpelling.NumbersSpelled | platform/audio_sequence.c:39-55 | numbers of one to four bytes: seven bits each, the most significant first |
| TrackSpelling.NoteOnSpelled | platform/audio_sequence.c:107-127 | 9n key velocity duration is that note, and so is the rest of it under running status |
| TrackSpelling.TwoDataSpelled | platform/audio_sequence.c:107-127 | any other status but C and D takes two data bytes, in that order, and no duration |
| TrackSpelling.OneDataSpelled | platform/audio_sequence.c:107-127 | C and D take one data byte |
| TrackSpelling.MetaSpelled | platform/audio_sequence.c:61-104 | FF 51 and a tempo, FF 2E and two bytes, FF 2F, and what they do to the running status |
| TrackSpelling.TokensSpelled | platform/audio_sequence.c:11-37 | FE FE is one FE, and a back-reference copies the block that far before it |
| TrackSpelling.EscapedExpands | platform/audio_sequence.c:11-37 | bytes written with each FE twice expand to themselves |
| TrackSpelling.MessageRoundTrip | platform/audio_sequence.c:57-130 | a message written with its status is read as it was written |
| TrackSpelling.TrackRoundTrip | platform/audio_sequence.c:196-236 | a written track is read as it was written, for every track the format can hold |
| SequenceMerge.EarliestIsFirst | platform/audio_sequence.c:210-221 | the chosen head is no later than any other and earlier than every lower track's |
| SequenceMerge.MergeKeepsTracks | platform/audio_sequence.c:196-236 | the merge of the tracks holds each track whole and in its own order |
| SequenceMerge.MergeOrdered | platform/audio_sequence.c:196-236 | the merge is in tick order, equal ticks in track order |
| SequenceReader.ReadToken | platform/audio_sequence.c:21-34 | a literal, an escape or the first byte of a back-reference is the first byte of the expansion, and the rest of the reference is left to copy |
| SequenceReader.StillGoesOn | platform/audio_sequence.c:231-234 | only the track that is the last to end needs a number after its end, and that track is known from the songs |
| SequenceReader.Reader.constructor | platform/audio_sequence.c:154-194 | opening reads every present track's first delta and pends its whole song |
| SequenceReader.Reader.TrackByte | platform/audio_sequence.c:11-37 | each call yields the next byte of the pure expansion of the compressed track |
| SequenceReader.Reader.ReadVarLen | platform/audio_sequence.c:39-55 | the loop decodes the number from the expanded stream |
| SequenceReader.Reader.MetaEvent | platform/audio_sequence.c:61-104 | meta events are decoded; tempo and loop start clear the running status, an end of track clears the track's valid bit, and anything else but a loop end changes neither |
| SequenceReader.Reader.ChannelEvent | platform/audio_sequence.c:116-127 | one or two data bytes, in that order, and a duration exactly for a note-on |
| SequenceReader.Reader.TrackEvent | platform/audio_sequence.c:57-130 | a whole event is decoded from the expanded stream, with running status |
| SequenceReader.Scan | platform/audio_sequence.c:209-221 | no tick subtraction underflows, and the least delta and its lowest track are found |
| SequenceReader.Reader.ReadMessage | platform/audio_sequence.c:223-234 | one message is decoded from the expanded stream, and the delta after it unless it ended a track that is not the last |
| SequenceReader.Reader.NextEvent | platform/audio_sequence.c:196-236 | each call emits the head of the merge, lastTicks is its absolute tick, and the last end is the sequence end |
| SequenceReader.Reader.NextDelta | platform/audio_sequence.c:238-263 | a peek reports the ticks to the next event and changes nothing still to come |
| SequenceReader.PlayAll | platform/audio_sequence.c:196-263 | reading to the end, with any number of peeks before each event, reports exactly the stable merge of the tracks |
| TrackSpelling.WriteAndPlay | platform/audio_sequence.c:154-263 | sixteen songs written into one block, opened and read to the end: out comes exactly their merge |
| TrackSpelling.ReportedAt | platform/audio_sequence.c:57-130 | what is reported for each message and after how many ticks: a note with its key, velocity and duration, a tempo with its bytes, the sequence end for the last message |
| VoiceLists.Lists.Unlink | platform/audio_synth.c:447-455 | unlinking a node of one of the three lists leaves all three well linked, that one without it |
| VoiceLists.Lists.LinkFirst | platform/audio_synth.c:135-147 | linking a node that is in no list puts it first in one, and all three stay well linked |
| SynthVoices.RemovedFacts | platform/audio_synth.c:447-455 | unlinking leaves every other voice in the list, once |
| SynthVoices.Synth.FindStealable | platform/audio_synth.c:149-170 | walking the links, the victim is the last of the lowest-priority voices not above the request and not stolen already |
| SynthVoices.VictimSpelled | platform/audio_synth.c:149-170 | the victim by its owner's priority, its place in the list and its offset of zero |
| SynthVoices.Synth.constructor | platform/audio_synth.c:293-318 | every voice is linked into the free list, and every parameter is free |
| SynthVoices.Synth.Relink | platform/audio_synth.c:135-147 | on the links, a voice leaves its list for the head of another and each voice stays in exactly one |
| SynthVoices.Synth.TakeFrom | platform/audio_synth.c:135-147 | the first voice of a list moves to the head of the allocated ones |
| SynthVoices.Synth.Enqueue | platform/audio_synth.c:104-114 | a parameter in hand is queued as an update, or returned if the voice has no filter; free, queued and held ones always number maxUpdates |
| SynthVoices.Synth.Submit | platform/audio_synth.c:116-133 | taking and queueing one parameter keeps free plus queued at maxUpdates |
| SynthVoices.Synth.UpdateVoice | platform/audio_synth.c:663-761 | one change is queued on the owned voice if a parameter is free, and nothing else moves |
| SynthVoices.Synth.FreeVoice | platform/audio_synth.c:763-785 | a voice goes lame at once, or, if stolen, by one queued request; without a parameter it stays owned; a voice is lost if and only if the request has no filter to go to |
| SynthVoices.Synth.Process | platform/audio_envmix.c:311-344 | a queued give-back resets the offset and sends the voice to the lame list; every processed update's parameter returns; no voice is lost |
| SynthVoices.Synth.Collect | platform/audio_synth.c:433-445 | the lame list is emptied onto the free list, each to its head |
| SynthVoices.Synth.TakeFirst | platform/audio_synth.c:604-608 | a lame voice is preferred to a free one |
| SynthVoices.Synth.TrySteal | platform/audio_synth.c:612-648 | a steal needs two parameters; a victim with a filter is queued a ramp to silence over 448 samples and a stop at 512, and uses them; it is marked stolen by 512 samples and its owner loses it; refused, a steal changes nothing |
| SynthVoices.Synth.Steal | platform/audio_synth.c:619-648 | with two parameters in hand the victim fades over 448 samples and stops at 512, is marked stolen, and its owner loses it; without a filter both parameters return |
| SynthVoices.Synth.AllocVoice | platform/audio_synth.c:590-661 | lame, then free, then stolen, then none; a stolen voice with a filter is queued its fade of 448 samples and its stop at 512 and two parameters are used, any other queue stays as it was; its owner and only its owner loses it; owners and owned agree, and a stolen voice is not stolen again before it is given back; a voice is lost if and only if the caller still owned one and did not get that one back |
| SynthVoices.ExactlyOneList | platform/audio_synth.c:135-147 | each physical voice is in exactly one of the allocated, free and lame lists, once |
| ConfigGrammar.EntryReads | platform/config_ini.c:64-113 | a written entry with a good leaf reads back as that key and value |
| ConfigGrammar.HeaderReads | platform/config_ini.c:49-62 | a written header reads back as its section up to the first bracket |
| ConfigGrammar.RootReads | platform/config_ini.c:174-176 | all root entries read back, in order, unchanged |
| ConfigGrammar.SectionReads | platform/config_ini.c:178-218 | all sectioned entries with good leaves read back, in order, under the section their header left |
| ConfigGrammar.SectionAdds | platform/config_ini.c:46-62 | only entries with good leaves can come back at all |
| ConfigGrammar.ReloadsExactly | platform/config_ini.c:158-220 | reading what was written returns root entries then sectioned ones unchanged, if and only if no section holds a bracket and no sectioned leaf starts like a section or comment |
| ConfigGrammar.CommentLeafIsLost | platform/config_ini.c:125-156 | the key s.#x passes the guard, and reading it back gives no entry at all |
| ConfigGrammar.BracketSectionIsCut | platform/config_ini.c:125-156 | the key a]b.c passes the guard, and reading it back gives a.c |
| ConfigSpelling.TrimmedExactly | platform/config_ini.c:10-24 | trimming takes off exactly the white space on both sides |
| ConfigSpelling.AssignmentReads | platform/config_ini.c:64-113 | what any assignment line reads as, white space around both halves included, and exactly when it is refused |
| ConfigSpelling.HeaderSpelled | platform/config_ini.c:49-62 | what any header line reads as, closed or not |
| ConfigSpelling.PassedOver | platform/config_ini.c:44-67 | comments, blank lines and lines without a sign change nothing |
| ConfigSpelling.LinesSplit | platform/config_ini.c:33-42 | lines end at line feeds, the last may do without, and what is refused stays refused |
| ConfigSpelling.ValueGuard | platform/config_ini.c:125-142 | which values may be written |
| ConfigSpelling.RootGuard | platform/config_ini.c:125-146 | which keys without a dot may be written |
| ConfigSpelling.SectionedGuard | platform/config_ini.c:143-156 | which keys with a dot may be written |
| ConfigSpelling.FitsArrays | platform/config_ini.c:125-156 | an entry is written if both texts fit their arrays and pass the guard |
| ConfigSpelling.FileSpelled | platform/config_ini.c:171-220 | the text of a file, character by character: root keys first, then each section under its header, with its blank lines |
| ConfigIni.Trim | platform/config_ini.c:10-24 | in place, the C string loses its outer white space and no byte before it or past its end changes |
| ConfigIni.Cut | platform/config_ini.c:51-71 | a NUL in the middle leaves both halves as strings |
| ConfigIni.TakeLine | platform/config_ini.c:44-113 | one line in the buffer is read as the grammar reads it |
| ConfigIni.ParseText | platform/config_ini.c:26-118 | the parser accepts and returns exactly what the grammar says, and never more than max entries |
| ConfigIni.WriteEntry | platform/config_ini.c:200-217 | an entry is written after its header if its section changed, or refused when it does not fit |
| ConfigIni.SerializeText | platform/config_ini.c:158-220 | writing succeeds exactly when every entry passes the guard and the whole text fits, and writes that text |
| ConfigIni.WriteAndRead | platform/config_ini.c:26-220 | what the writer wrote the parser gives back, root entries first and sectioned ones after, unchanged, if and only if no section holds a bracket and no sectioned leaf starts like a section or a comment |
| AssetSwap.Sw16Arr | platform/asset_swap.c:68-73 | exactly the named halfwords are swapped |
| AssetSwap.HeadersLineUp | platform/asset_swap.c:1030-1043 | header 2 starts exactly at the end of the 16+6n byte prefix, and each header is its length and the 3n delta bytes before the next |
| AssetSwap.HeaderRepaired | platform/asset_swap.c:1086-1090 | swapping header m extends the repair by exactly its four halfwords |
| AssetSwap.NoMoreHeaders | platform/asset_swap.c:1083-1085 | once a header does not fit no later one does |
| AssetSwap.ObjectAnimation | platform/asset_swap.c:1044-1093 | every byte ends where its field says, for every vertex and keyframe count and size below the 32-bit wrap |
| AssetSwap.SourceInvolution | platform/asset_swap.c:1044-1093 | each byte moves at most once, within its own field |
| AssetSwap.DeltasUntouched | platform/asset_swap.c:1071-1092 | all signed delta bytes stay as they are |
| AssetSwap.PrefixSpelled | platform/asset_swap.c:1054-1072 | the count turned round, the halfwords at 4, 6, 8 and 14 and those of the table at 16 exchanged if they fit, and nothing else up to the first header |
| AssetSwap.HeaderSpelled | platform/asset_swap.c:1077-1092 | header m at (3n + 12)m - 8: halfwords 0, 2, 4 and 10 exchanged, everything else in it and behind it as it was, and all of it if it does not fit |
| AssetSwap.FlippedSpelled | platform/asset_swap.c:68-73 | exactly the halfwords named are exchanged |
| AssetSwap.DescribesSpelled | platform/asset_swap.c:1327-1368 | what makes a cheat table describe itself, in numbers |
| AssetSwap.CheckIndex | platform/asset_swap.c:1345-1368 | the index is accepted exactly when it describes itself and every offset reaches a NUL inside the blob |
| AssetSwap.MiscMagicCodes | platform/asset_swap.c:1327-1371 | either the index alone is swapped, exactly when the blob describes itself, or every byte is restored |
| QueueController.Controller.TakeDrain | platform/audio_queue_controller.c:141-167 | a measurement is used once; otherwise the drain is inferred, with the stall guards |
| QueueController.Controller.ConsumedSpelled | platform/audio_queue_controller.c:141-167 | the drain measured, or what the counter says up to four blocks, or half a block |
| QueueController.Controller.LatencyTarget | platform/audio_queue_controller.c:45-94 | the gap memory and the target in saturating 32-bit arithmetic |
| QueueController.Controller.Choose | platform/audio_queue_controller.c:121-230 | the block, the gap, the target and the underrun count of one decision |
| QueueController.BlockBounds | platform/audio_queue_controller.c:214-222 | blocks are whole sixteens between 16 and the maximum, as small as 16 and as big as the maximum when they should be |
| QueueController.FrameSizes | platform/audio_queue_controller.c:6-9 | the frame size asked for, a thirtieth of a second, or sixteen |
| QueueController.GapSpelled | platform/audio_queue_controller.c:53-68 | a longer drain replaces the gap memory at once; any other takes off a 64th of its excess, and one |
| QueueController.TargetSpelled | platform/audio_queue_controller.c:73-92 | the target is one block and three times the excess, up to three blocks, and at least a device period |
| QueueController.TargetBounds | platform/audio_queue_controller.c:71-93 | the target lies between one block and the larger of three blocks and one device period |
| QueueController.OccupancyAfter | platform/audio_queue_controller.c:196-212 | an unclipped block leaves the queue in (drain+target-16, drain+target] and outlasts any drain up to there |
| QueueController.RememberedGapSurvives | platform/audio_queue_controller.c:11-36 | up to three blocks, a drain no worse than the remembered gap never empties a queue just filled |
| QueueController.OccupancyBounded | platform/audio_queue_controller.c:196-222 | a turn leaves at most the drain plus the target, or sixteen more than was left; drains of at least sixteen, starving ones included, never leave the queue deeper than before or than drain plus target |
| QueueController.GapDecays | platform/audio_queue_controller.c:57-68 | while drains stay within one block the gap memory falls strictly until it is one block |
| QueueController.GapForgotten | platform/audio_queue_controller.c:57-68 | over a run the excess is gone after at most as many such drains as it has frames |
| QueueController.HostTurn | platform/audio_queue_controller.c:121-230 | reporting a drain and queueing the chosen block is one turn of the loop below |
| QueueController.ClosedLoop | platform/audio_queue_controller.c:121-230 | over every run of drains between sixteen frames and one block, from any depth and gap: after one turn the queue always outlasts the next drain, the depth stays bounded, and the gap memory comes down to one block |
| QueueController.LoopBounded | platform/audio_queue_controller.c:121-230 | drains of any size from sixteen up never leave the queue deeper than it was, or than the worst drain plus the largest target |
| QueueController.GapRemembered | platform/audio_queue_controller.c:41-68 | k turns after a drain the gap memory still has its excess, less k 64ths of it and k |
| QueueController.BeatSurvived | platform/audio_queue_controller.c:11-38 | what the target is for: in a beat whose longest drain, a block and up to two more, comes back at least every sixteen turns, the queue always outlasts the next drain, from any depth and any memory |
| DevCommand.NoCheaper | platform/dev_command.c:270-296 | no way of turning one word into the other costs less than the distance |
| DevCommand.Reached | platform/dev_command.c:270-296 | some way costs just the distance |
| DevCommand.Symmetric | platform/dev_command.c:270-296 | the distance is symmetric |
| DevCommand.ZeroIffSame | platform/dev_command.c:270-296 | it is zero exactly for words that differ in case at most |
| DevCommand.Triangle | platform/dev_command.c:270-296 | it obeys the triangle inequality |
| DevCommand.LettersSpelled | platform/dev_command.c:282-283 | the case of the 26 letters is ignored and nothing else |
| DevCommand.OneSlip | platform/dev_command.c:270-296 | a letter too many, too few or wrong is a distance of one |
| DevCommand.EditDistance | platform/dev_command.c:270-296 | the two-row loop computes the distance of the 31-character prefixes |
| DevCommand.Suggest | platform/dev_command.c:298-316 | the first verb of least distance, exactly when that distance is at most three |

## Left out

- NULL arguments: every function's NULL guards return early; the model's references are never null where the code would have returned.
- Floating point: rounding, NaN and infinity checks, publication as `float`, and guards that only rounding can reach (a midpoint equal to an end of its interval).
- Narrow test: the closest-feature lens/triangle test is the oracle `Tester`, not modelled.
- Completeness of the 31 axes: that no separating axis outside the list is ever needed is not claimed; the search does not rely on it.
- Reference lens sweep, sphere sweep, broad phase and telemetry of the camera: the same ideas in more cases.
- Camera resolver projection and blocker report: the guard radius comes from the projection as an input, and the copied blocker fields are dropped.
- Retiming.TempoChange: times are unbounded integers; only the 32-bit product of the rescaling wraps.
- Signed overflow of the player clock and of deltas: not modelled.
- Occupancy table: the sixteen-slot table that finds a queue's sidecar is a reference that may be absent.
- Voice and channel handling of the player beyond the routines above: MIDI controllers, envelopes, sound lookup.
- Speech backends, voice settings and the text model: lines are opaque, cancel requests may come at any time.
- SpeechWorker.BargeIn: assumes fewer than 2^32 discards between one pop and its re-check; `SpeechWorker.RecheckExact` says what happens otherwise.
- AudioRing.Ring.Push: diagnostics such as the deepest fill are dropped and 64-bit totals are unbounded.
- SequencePlayer.Player.Post: an event of the kind that stands for an empty queue is not posted; the player would take it for a heartbeat.
- SequenceReader.Reader.MetaEvent: a loop end is not read, see the sequence loops below; so also for `TrackEvent`, `ReadMessage` and the tracks the constructor takes.
- Sequence loops: loop ends rewrite the sequence bytes and move the cursor; tracks with loop ends do not parse here.
- Sequence markers and header detection: saving and restoring a position, and byte order of the header.
- SequenceReader.Reader.NextEvent: tracks are well formed, with ticks below 2^32 - 1, and a number follows the end of the track that is the last to end.
- Synthesiser parameters: counted, not identified; a voice is found from its list node through a map, where the code casts one pointer to the other.
- Envelope ramps, start parameters and audio command lists of the synthesiser.
- ConfigIni.SerializeText: the output buffer is a growing string, and the section and key buffers are strings within their sizes.
- AssetSwap.ObjectAnimation: sizes and vertex counts below the 32-bit wrap, on a little-endian host.
- Other asset layouts: object and level models nest arrays through offsets that may overlap, so nothing strong holds of them.
- QueueController.Controller.Choose: diagnostics such as the deepest queue are dropped; a controller is always present.
- Command parsing and verb execution of the console.
