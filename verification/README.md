# A model of the screencast engine of xdg-desktop-portal-wlr

This project models the part of xdg-desktop-portal-wlr that moves frames from a Wayland compositor
to PipeWire, and proves what it keeps over whole runs. `dafny verify dfyconfig.toml` checks all of it.

The compositor, PipeWire, GBM, the kernel's timerfd and D-Bus clients are nondeterministic: they may
do anything their protocol allows, in any order. What the source does in answer is written twice:
as a class whose methods have the source's branches and loops, and as a function of the old fields
that each method is proved to compute. The theorems about runs are proved about those functions.

Pointers are opaque identifiers, and what they point to is a map entry that disappears when the
source frees the object. A lookup therefore verifies only if the pointer is live. A run's steps are
left unconstrained wherever such a pointer would dangle, so no theorem about runs can assume it away.

| file | part of the program |
|---|---|
| `Damage.dfy` | damage rectangles, merging, the bounded damage metadata |
| `Capture.dfy`, `CaptureRuns.dfy` | the capture cycle of a cast on the ext-image-copy-capture path and the parties around it |
| `DamageTracking.dfy` | incremental capture and repainting equal full copies |
| `CaptureDiscipline.dfy`, `CaptureExamples.dfy` | when the assumptions of those theorems hold, and runs in which they fail |
| `Timers.dfy`, `FrameLimiter.dfy` | the timer queue, and the frame-rate limiter on top of it |
| `PacedCaptures.dfy` | the capture cycle with its limiter and timer |
| `WlList.dfy`, `Lifecycle.dfy` | intrusive lists; sessions, instances, outputs, reference counts, hooks |
| `Formats.dfy`, `Constraints.dfy`, `Offers.dfy`, `Negotiation.dfy` | format tables, buffer constraints, offers, negotiation |
| `NegotiationExamples.dfy` | inputs on which offers and negotiation fail, with the events that commit them |
| `DmabufFeedback.dfy`, `WlrScreencopy.dfy` | dmabuf feedback; the wlr-screencopy backend |
| `RandName.dfy`, `Common.dfy` | random names; shared vocabulary |

## Where the code does not do what it is meant to

For each of these there is a concrete input or run in which the code fails, and a lemma that says
exactly when it does not.

* `merge_damage` compares the first rectangle's x with the second's y: `Damage.AsWrittenLosesDamage`,
  end to end `CaptureExamples.AsWrittenLeavesStale`; exact conditions `Damage.AsWrittenCoversIff`,
  `Damage.FoldCoversIff`, `Damage.PackCoversIff`. Theorems that depend on the merge take the comparison
  as a parameter: as written, or the minimum that the line for y computes.
* Pausing during a capture and resuming while the limiter delays the next one makes the ready event
  clear the damage of a buffer it did not fill and queue that buffer as a good frame:
  `CaptureExamples.PauseResumeDeliversStale`; exact conditions, checkable before the event,
  `CaptureDiscipline.EveryReadyKeepsSyncIff` for the pool and
  `CaptureDiscipline.EveryReadyReachesConsumerIff` for the consumer.
* A ready event that finds no buffer held, because the stream was paused during the capture, clears the
  frame's damage although no frame carries it: the pool stays right and the consumer does not,
  `CaptureExamples.PausedDamageIsLost`; exact conditions `CaptureDiscipline.ReadyReachesConsumerIff`,
  `CaptureDiscipline.EveryReadyReachesConsumerIff`, over whole runs `DamageTracking.ConsumerHoldsScreenIff`.
* Pausing during a capture and resuming without a delay creates a second frame beside a live one, a
  protocol error: `CaptureExamples.ResumeCreatesSecondFrame`; exact condition
  `CaptureDiscipline.SecondFrameIff`.
* A buffer added after a ready frame, or after damage was reported, starts with empty damage and is
  captured into incompletely: `CaptureExamples.LateBufferDeliversStale`; exact condition
  `CaptureDiscipline.AddKeepsSyncIff`.
* The frame rate can rise again after it was negotiated down, because a finished negotiation leaves
  the old range on offer: `NegotiationExamples.FramerateCanRise`; exact condition
  `Negotiation.FramerateCannotRiseIff`. A configured limit below one frame per second is no limit
  (`Negotiation.MaxFramerateBounds`), and without one the limiter goes on and off with what the consumer
  asks for (`Negotiation.LimiterStaysOnIff`).
* The wlr backend replaces the constraints without offering anew, so the fourcc assertion can fail
  on a legal pick: `NegotiationExamples.SilentReplacementTrips`; exact conditions
  `Negotiation.SilentReplacementSafeIff`, `Negotiation.AssertionHoldsIff`.
* A wlr frame that announces no shm buffer is never destroyed: exact condition
  `WlrScreencopy.FramesAreDisposed`, and a run, `WlrScreencopy.SilentFrameLeaks`.
* A wlr frame that fails before `buffer_done` leaves its announcements to the next frame:
  `WlrScreencopy.LeftoverReachesNextFrame`; exact condition `WlrScreencopy.LeftoversHarmlessIff`.
* The shm array is walked word by word, strides included: `NegotiationExamples.StrideIsOffered`; exact condition
  `Offers.ShmWalkExactIff`. A format whose dmabuf pairs are not contiguous is offered more than once:
  `NegotiationExamples.ScatteredOfferedTwice`; exact condition `Offers.OfferedOnceIffContiguous`.
* A format with alpha is also offered without it, but a buffer is only created for a listed format:
  `NegotiationExamples.PickWithoutAlphaHasNoBuffer`; exact conditions `Negotiation.ShmPicksServedIff`,
  `Negotiation.FreshShmPicksServedIff`.

## Model

| member | source | states |
|---|---|---|
| Damage.IntendedIsBoundingBox | src/screencast/screencast_common.c:435-447 | with the minimum on both axes the merge covers both rectangles, and any rectangle spanning both contains it |
| Damage.AsWrittenCoversIff | src/screencast/screencast_common.c:438 | the shipped merge covers both rectangles if and only if the branch taken drops no column of a non-empty one |
| Damage.AsWrittenLosesDamage | src/screencast/screencast_common.c:438 | a concrete pair of rectangles whose merge does not cover them |
| Damage.FoldMergeBounds | src/screencast/pipewire_screencast.c:276-286 | on three sides a chain of merges reaches at least as far as each of its rectangles; the left edge is what the chain of comparisons leaves |
| Damage.FoldMergeEdges | src/screencast/screencast_common.c:435-447 | with either comparison each edge of a chain of merges is an edge of one of its rectangles |
| Damage.IntendedFoldIsLeast | src/screencast/pipewire_screencast.c:276-286 | with the minimum on both axes a chain of merges lies in every rectangle that spans all it merges |
| Damage.FoldCoversIff | src/screencast/pipewire_screencast.c:276-286 | a chain of merges covers all its rectangles if and only if its final left edge is at or left of each non-empty one |
| Damage.PackExactWhenItFits | src/screencast/pipewire_screencast.c:262-297 | damage that fits is stored in order, the rest zero-filled, and exactly its pixels are reported |
| Damage.PackCovers | src/screencast/pipewire_screencast.c:256-298 | with the overflow folded into the last region, every damaged pixel is reported if the overflow keeps its columns |
| Damage.IntendedPackCovers | src/screencast/pipewire_screencast.c:256-298 | with the intended merge every damaged pixel is reported, for any list and any positive number of regions |
| Damage.PackOverflow | src/screencast/pipewire_screencast.c:256-298 | when damage does not fit, all regions but the last hold it as it is, and with the intended merge the last shows no more than it must |
| Damage.PackCoversIff | src/screencast/pipewire_screencast.c:256-298 | for either merge and any number of regions, every damaged pixel is reported if and only if it fits or what lies left of the folded region's edge is in an earlier region too |
| Damage.OneRegionCoversIff | src/screencast/pipewire_screencast.c:275-288 | with a single region, coverage holds if and only if the overflow keeps its columns |
| Damage.WriteDamage | src/screencast/pipewire_screencast.c:256-298 | the three loops stay inside the metadata and leave it as the packed damage |
| Capture.Cast.EnqueueBuffer | src/screencast/pipewire_screencast.c:221-329 | a held buffer is queued with its corrupt flag and packed damage and let go; without one nothing is queued or written |
| Capture.Cast.FrameCapture | src/screencast/ext_image_copy.c:288-320 | the capture request carries the held buffer and all the damage it accumulated; without a buffer there is none |
| Capture.Cast.OnProcess | src/screencast/pipewire_screencast.c:589-610 | a streaming cast without a buffer takes one and captures now or sets a timer; otherwise nothing changes |
| Capture.Cast.CaptureTimer | src/screencast/wlr_screencast.c:29-50 | an expired timer starts a capture into whatever is held |
| Capture.Cast.HandleStateChanged | src/screencast/pipewire_screencast.c:350-372 | leaving streaming for paused gives the held buffer back; only the streaming state streams |
| Capture.Cast.AddBuffer | src/screencast/pipewire_screencast.c:541-548 | a new buffer joins the pool with no damage |
| Capture.Cast.RemoveBuffer | src/screencast/pipewire_screencast.c:569-587 | a removed buffer leaves the pool, is freed, and is no longer held |
| Capture.Cast.FrameDamage | src/screencast/ext_image_copy.c:170-186 | the loop adds the rectangle to every pool buffer once, and to the frame |
| Capture.Cast.FrameReady | src/screencast/ext_image_copy.c:198-217 | a ready frame queues the held buffer as complete and clears its damage and the frame's |
| Capture.Cast.FrameFailed | src/screencast/ext_image_copy.c:219-245 | a failed frame queues the held buffer as corrupt and keeps all damage |
| CaptureRuns.OwnedStep | src/screencast/pipewire_screencast.c:208-238 | every event keeps buffer ownership, the correspondence of pool and PipeWire buffers, and the counts |
| CaptureRuns.OwnershipEveryRun | src/screencast/pipewire_screencast.c:541-610 | in every run each PipeWire buffer is with the stream or held, at most one is held, its user data is the held buffer, every pointer followed is live |
| CaptureRuns.DamageIsHistory | src/screencast/ext_image_copy.c:170-217 | in every run the frame's damage is exactly what was reported since the last ready event, and each pool buffer's what was reported since it was added or last held at one |
| CaptureRuns.TakenIff | src/screencast/pipewire_screencast.c:589-610 | a buffer is taken from the stream exactly while it is streaming, none is held and there is one |
| CaptureRuns.EmptyPoolAtTeardown | src/screencast/screencast.c:123-124 | once PipeWire has removed all buffers the pool is empty; never are more frames queued than dequeued |
| DamageTracking.ReadyCapturesScreen | src/screencast/ext_image_copy.c:300-307 | at a ready event copying only sent and reported damage makes the captured buffer equal to the screen |
| DamageTracking.SyncedOnReadyIff | src/screencast/ext_image_copy.c:198-217 | a ready event keeps every buffer right outside its own damage if and only if the held buffer is the captured one, or current, or there is none |
| DamageTracking.PoolAgreesAfterFailure | src/screencast/ext_image_copy.c:219-237 | whatever a failed copy wrote lies inside damage the buffer keeps |
| DamageTracking.SyncedEveryRun | src/screencast/ext_image_copy.c:170-217 | in every orderly run each pool buffer differs from the last ready screen only inside its accumulated damage |
| DamageTracking.IncrementalCaptureIsFullCapture | src/screencast/ext_image_copy.c:170-217 | in every orderly run each ready event leaves the captured buffer equal to the whole screen |
| DamageTracking.ConsumerOnFailed | src/screencast/ext_image_copy.c:219-237 | a failed frame changes nothing a consumer holds and leaves frame and buffer damage as they were |
| DamageTracking.ConsumerOnReadyIff | src/screencast/ext_image_copy.c:209-216 | whatever buffer a ready event finds held, if any, the consumer ends up with the new screen if and only if each pixel it repaints comes from the captured buffer or was right where it comes from, and each other pixel was right already |
| DamageTracking.ConsumerHoldsScreen | src/screencast/pipewire_screencast.c:256-298 | if buffers join in time and every ready event finds the captured buffer held and packs all the damage, a consumer that drops corrupt frames and repaints only reported regions holds the last ready screen at every moment |
| DamageTracking.ConsumerHoldsScreenIff | src/screencast/ext_image_copy.c:198-217 | in every orderly run, whether or not ready events find a buffer held, that consumer holds the last ready screen at every moment if and only if each ready event repaints or finds right every pixel |
| CaptureDiscipline.OneCaptureEveryQuietRun | src/screencast/wlr_screencast.c:39-50 | without pause or removal during a capture, a buffer is held exactly while one timer or one frame is outstanding, never both, and no second frame is created |
| CaptureDiscipline.QuietRunsHoldScreen | src/screencast/pipewire_screencast.c:256-298 | in quiet runs whose buffers join before damage is reported, the consumer holds the screen if what folding each frame's overflow loses is reported elsewhere, for either merge |
| CaptureDiscipline.IntendedHoldsScreen | src/screencast/pipewire_screencast.c:256-298 | in quiet runs whose buffers join before damage is reported, with the intended merge, the consumer always holds the screen |
| CaptureDiscipline.ReadyKeepsSyncIff | src/screencast/ext_image_copy.c:209-216 | the exact condition under which a ready event may find another buffer held without harm to the pool |
| CaptureDiscipline.EveryReadyKeepsSyncIff | src/screencast/ext_image_copy.c:198-217 | before the event: the pool stays right whatever the screen if and only if the captured buffer or none is held, or nothing was reported and the held buffer is the last ready screen |
| CaptureDiscipline.ReadyReachesConsumerIff | src/screencast/ext_image_copy.c:209-216 | if the held buffer, if any, is the captured one, the consumer gets the new screen if and only if a buffer is held or the consumer has that screen already, for either merge if what folding loses is reported elsewhere |
| CaptureDiscipline.IntendedReachesConsumerIff | src/screencast/ext_image_copy.c:209-216 | with the intended merge, and the held buffer, if any, the captured one, the same holds whatever the damage is |
| CaptureDiscipline.EveryReadyReachesConsumerIff | src/screencast/ext_image_copy.c:198-217 | before the event: the consumer gets whatever screen the compositor comes up with if and only if, with the captured buffer or none held, the regions packed show everything reported for the frame, or, with another buffer held, nothing was reported and repainting from it changes nothing |
| CaptureDiscipline.AddKeepsSyncIff | src/screencast/screencast_common.c:113-117 | at any moment a buffer may join the pool if and only if it holds the last ready screen, if any, and nothing has been reported for a frame in flight |
| CaptureDiscipline.SecondFrameIff | src/screencast/ext_image_copy.c:288-309 | a step violates the protocol if and only if it creates a frame while one is in flight |
| CaptureExamples.PauseResumeDeliversStale | src/screencast/pipewire_screencast.c:363-366 | a run in which a buffer that was never filled is queued as good and its damage cleared |
| CaptureExamples.PausedDamageIsLost | src/screencast/ext_image_copy.c:209-216 | a run that keeps the pool right, in which the damage of a frame that became ready while paused never reaches the consumer |
| CaptureExamples.ResumeCreatesSecondFrame | src/screencast/pipewire_screencast.c:589-610 | a run in which resuming during a capture creates a second frame beside it |
| CaptureExamples.AsWrittenLeavesStale | src/screencast/screencast_common.c:438 | a quiet run in which the shipped merge leaves the consumer with a stale pixel |
| CaptureExamples.LateBufferDeliversStale | src/screencast/screencast_common.c:113-117 | a quiet run in which a late buffer is captured into with no damage, ends unlike the screen and makes the consumer stale |
| Timers.TimespecAdd | src/core/timespec_util.c:4-15 | the sum is normalised and is the instant that much later |
| Timers.LessIsEarlier | src/core/timespec_util.c:17-33 | on normalised stamps comparison, difference and the zero test are those of the instants |
| Timers.ScanIsLeast | src/core/timer.c:15-23 | the scan ends on a least deadline of the list and its starting point |
| Timers.UpdatedConsistent | src/core/timer.c:9-34 | update_timer leaves the cached timer null exactly for an empty list, otherwise least, and the timerfd armed with its deadline |
| Timers.DestroyedConsistent | src/core/timer.c:55-69 | destroying any timer, the cached one included, keeps that |
| Timers.DispatchedConsistent | src/core/main.c:269-288 | after a timer event the earliest timer is gone and the next is armed |
| Timers.TimerQueue.UpdateTimer | src/core/timer.c:9-34 | the loop computes the scan and re-arms exactly when the cached timer changed |
| Timers.TimerQueue.AddTimer | src/core/timer.c:36-53 | the new timer's deadline is the clock plus the delay; the queue stays consistent |
| Timers.TimerQueue.DestroyTimer | src/core/timer.c:55-69 | the timer is unlinked and freed and the cache renewed |
| Timers.TimerQueue.HandleTimerEvent | src/core/main.c:269-288 | the cached timer is removed before its callback runs |
| Timers.TimersEveryRun | src/core/timer.c:9-69 | in every run callbacks run once each, never early, in nondecreasing deadline order |
| Timers.TimersAreAccounted | src/core/timer.c:36-69 | in every run each timer ever added is pending, has had its callback or was destroyed, exactly one of these, and its deadline is the clock when it was added plus its delay |
| FrameLimiter.FpsLimit.MeasureStart | src/screencast/fps_limit.c:13-19 | a start is stamped if a limit is set |
| FrameLimiter.FpsLimit.MeasureFps | src/screencast/fps_limit.c:45-67 | the statistics are restarted after five seconds and never touch the limiter's stamp |
| FrameLimiter.FpsLimit.MeasureEnd | src/screencast/fps_limit.c:21-43 | the delay is what is missing to the target, or nothing |
| FrameLimiter.DelayReachesTarget | src/screencast/fps_limit.c:26-42 | waiting out the delay ends exactly at the last start plus the target; no delay means it has passed |
| FrameLimiter.TargetIsRate | src/screencast/fps_limit.c:32-34 | the target is 10^9 nanoseconds divided by the frame rate, rounded down |
| FrameLimiter.DelayKeepsRate | src/screencast/fps_limit.c:26-42 | after the delay the distance from the last start keeps the frame rate, and a nanosecond less would not |
| FrameLimiter.RequestCapture | src/screencast/wlr_screencast.c:43-50 | a capture starts at once, no sooner than the target after the last, or a timer is set whose deadline is no sooner either; never both |
| FrameLimiter.WellPacedEveryRun | src/screencast/wlr_screencast.c:29-50 | with any other timers coming and going, consecutive capture starts are at least the target apart |
| FrameLimiter.StartsKeepRate | src/screencast/wlr_screencast.c:29-50 | with any other timers coming and going, no two consecutive captures start closer together than the frame rate allows |
| FrameLimiter.CapturesPerWindow | src/screencast/fps_limit.c:13-43 | a window holds at most its length divided by the target, plus one, captures; n intervals take 10^9 * n / fps but for rounding |
| PacedCaptures.FramesAreSpaced | src/screencast/wlr_screencast.c:29-50 | in every run of the capture cycle with the limiter choosing when to wait, if no buffer is let go while its capture waits, frames are created no closer together than the frame rate allows |
| PacedCaptures.QuietFramesAreSpaced | src/screencast/pipewire_screencast.c:589-610 | in quiet runs that holds and at most one timer or frame is outstanding |
| WlList.RingFrom | src/screencast/screencast.c:113 | a circular list can be entered at any of its links |
| WlList.ListMemory.Length | src/screencast/screencast.c:113 | following the links counts the others on the ring, from whichever link |
| WlList.ListMemory.Insert | src/screencast/screencast.c:84 | insertion puts the element right behind the head and changes neither link of any element outside the ring |
| WlList.ListMemory.Remove | src/screencast/screencast.c:99-103 | removal closes the ring; removing a link that is alone changes no other link, so it may be done twice |
| WlList.LengthFromMember | src/screencast/screencast.c:112-113 | the length taken from a member is the number of members, and 1 exactly for the only one |
| WlList.RemoveMember | src/screencast/screencast.c:122 | removing a member from any position leaves the list of the others |
| WlList.NextLink | src/screencast/wlr_screencast.c:533-548 | a traversal visits the members in order and ends at the head |
| Lifecycle.InstanceGoneConsistent | src/screencast/screencast.c:89-130 | destroying an instance leaves no session or timer that points at it and everything else in order |
| Lifecycle.InstanceGoneSpares | src/screencast/screencast.c:89-130 | what does not belong to the destroyed instance is as it was |
| Lifecycle.InstanceGoneHooks | src/screencast/screencast.c:112-122 | the hook after runs exactly when the last instance goes |
| Lifecycle.SessionGoneConsistent | src/core/session.c:60-89 | destroying a session finds a positive count and takes the instance along exactly when it was the last |
| Lifecycle.SessionGoneExactly | src/core/session.c:60-89 | the session goes, all others stay with their instances, the count of its instance drops by one, and the instance goes with its timers exactly if that count was 1 |
| Lifecycle.SessionCreatedConsistent | src/core/session.c:43-58 | a new session is listed without an instance, and nothing else changes |
| Lifecycle.SelectedConsistent | src/screencast/screencast.c:215-218 | selecting sources gives a session without one a new instance, with one reference and that target, or leaves all as it is |
| Lifecycle.OutputRemovedConsistent | src/screencast/wlr_screencast.c:533-548 | removing an output destroys exactly the instances on it with their sessions and timers, spares all others with their counts, and leaves no target dangling |
| Lifecycle.PortalState.DestroyTimersOf | src/screencast/screencast.c:90-95 | the first loop of the destructor removes exactly the instance's timers |
| Lifecycle.PortalState.DestroySessionsOf | src/screencast/screencast.c:96-105 | the second loop destroys exactly the instance's sessions and brings its count to zero |
| Lifecycle.PortalState.InstanceDestroy | src/screencast/screencast.c:89-130 | the destructor terminates and its assertion holds |
| Lifecycle.PortalState.SessionDestroy | src/core/session.c:60-89 | mutually recursive with the instance's destructor: terminates, and its assertion holds |
| Lifecycle.PortalState.SessionCreate | src/core/session.c:43-58 | a new session is listed and has no instance |
| Lifecycle.PortalState.SetupTarget | src/screencast/screencast.c:215-218 | creates an instance only for a session without one |
| Lifecycle.PortalState.InstanceInit | src/screencast/screencast.c:49-87 | the hook before runs only when the list of instances is empty; the new instance has one reference and is linked behind the head |
| Lifecycle.PortalState.Free | src/screencast/screencast.c:112-122 | the length taken from the instance itself decides the hook after: it runs exactly for the last instance, which is then unlinked |
| Lifecycle.PortalState.HandleOutputRemoved | src/screencast/wlr_screencast.c:533-548 | following the links with the successor read in advance, the loop destroys each matching instance of the list it walks |
| Lifecycle.PortalEveryRun | src/core/session.c:60-89 | through any interleaving counts equal references, nothing dangles, every destructor may be called and its assertions hold, and hooks alternate with one more before than after exactly while an instance is live |
| Constraints.BufferConstraints.MoveFrom | src/screencast/screencast_common.c:461-472 | a dirty set is moved whole and its source emptied; a clean one changes nothing |
| Constraints.ExtSession.HandleBufferSize | src/screencast/ext_image_copy.c:28-36 | the pending size is replaced and the set marked dirty, nothing else changes |
| Constraints.ExtSession.HandleShmFormat | src/screencast/ext_image_copy.c:38-71 | a supported format is added once |
| Constraints.ExtSession.HandleDmabufDevice | src/screencast/ext_image_copy.c:73-83 | the pending device is replaced and the set marked dirty, nothing else changes |
| Constraints.ExtSession.HandleDmabufFormat | src/screencast/ext_image_copy.c:85-117 | the nested loops add each new pair once, in order |
| Constraints.ExtSession.HandleDone | src/screencast/ext_image_copy.c:119-143 | strides are computed, the assertion on the size holds, and a dirty set is committed |
| Constraints.ConstraintsFollowBatches | src/screencast/ext_image_copy.c:28-143 | over any event stream what is committed is the fold of the last dirty batch alone, with strides from its own width; a clean pending set is empty |
| Constraints.CommittedAreClean | src/screencast/ext_image_copy.c:38-143 | committed constraints have no duplicates, and a stride is bpp times width if and only if that fits 32 bits |
| Constraints.CommittedIffAnnounced | src/screencast/ext_image_copy.c:38-117 | a pair or shm format is committed if and only if an event of the last dirty batch announced it, an shm format only with a known pixel size |
| Constraints.PairsInOrder | src/screencast/ext_image_copy.c:85-117 | the modifiers of one event are announced in their order, each with its format |
| Formats.KnownCodesAreLarge | src/screencast/screencast_common.c:266-309 | every known fourcc is at least 0x30000000 |
| Formats.PwRoundTrip | src/screencast/screencast_common.c:266-381 | the two tables are inverse to each other |
| Formats.ShmRoundTrip | src/screencast/screencast_common.c:244-264 | wl_shm and fourcc codes round-trip except exactly the two reassigned numbers |
| Formats.StripAlphaKeepsSize | src/screencast/screencast_common.c:383-404 | dropping alpha keeps the pixel size and happens at most once |
| Formats.TableFollowsNames | src/screencast/screencast_common.c:338-381 | every fourcc follows from the name of its PipeWire format: channels from the most significant bit, and depth |
| Formats.BppFollowsNames | src/screencast/screencast_common.c:311-336 | an eight-bit format takes a byte for each channel, a ten-bit one four |
| Formats.StripAlphaRenames | src/screencast/screencast_common.c:383-404 | exactly the formats with alpha have a twin, in which that channel is unused and the others are kept |
| Formats.BppIffSinglePlane | src/screencast/screencast_common.c:311-336 | a pixel size is known for exactly the known single-plane formats |
| Offers.CountModifiers | src/screencast/screencast_common.c:474-486 | the counting pass counts the usable modifiers |
| Offers.QueryModifiers | src/screencast/screencast_common.c:488-502 | the filling pass writes exactly that many, in order, inside the array |
| Offers.UsableModifierIff | src/screencast/screencast_common.c:474-502 | a modifier is usable if and only if it is listed for the format and is implicit or can be imported |
| Offers.UsableModifiersInOrder | src/screencast/screencast_common.c:488-502 | usable modifiers are listed in the order of the pairs, one for each |
| Offers.BuildModifierList | src/screencast/pipewire_screencast.c:133-145 | count and fill agree: the list is exactly the usable modifiers of the format, in order |
| Offers.AddDmabufFormats | src/screencast/pipewire_screencast.c:157-180 | the dmabuf loop, with its memory of the last format only, offers what the offer function says |
| Offers.AddShmFormats | src/screencast/pipewire_screencast.c:182-190 | the shm loop offers every word of the array that is a known code |
| Offers.BuildFormats | src/screencast/pipewire_screencast.c:155-191 | the loops offer what the offer functions say |
| Offers.OffersAreShaped | src/screencast/pipewire_screencast.c:83-131 | every offer has the constraints' width and height, is open if and only if it has modifiers, and is also for the format without alpha if it has none; those with modifiers come first |
| Offers.OfferedOnceIffContiguous | src/screencast/pipewire_screencast.c:157-180 | a known format with usable modifiers is offered with exactly those, at least once, and once if and only if its pairs are contiguous |
| Offers.DmabufOffersInOrder | src/screencast/pipewire_screencast.c:157-180 | dmabuf offers follow the order of the pairs |
| NegotiationExamples.ScatteredOfferedTwice | src/screencast/pipewire_screencast.c:157-180 | constraints an ext session commits for which one format is offered twice |
| Offers.NothingElseOffered | src/screencast/pipewire_screencast.c:157-180 | no other format is offered over dmabuf |
| Offers.ShmWalkExactIff | src/screencast/pipewire_screencast.c:182-190 | the word-by-word walk offers exactly the known shm formats if and only if no stride is a known code |
| NegotiationExamples.StrideIsOffered | src/screencast/pipewire_screencast.c:182-190 | constraints an ext session commits whose stride is offered as a second format |
| Negotiation.NegotiatingCast.HasFourcc | src/screencast/pipewire_screencast.c:193-206 | the search finds a fourcc exactly if it is listed and dmabufs are not avoided |
| Negotiation.NegotiatingCast.SetConstraints | src/screencast/ext_image_copy.c:133-138 | committed constraints are followed by a new offer built from them |
| Negotiation.NegotiatingCast.HandleParamChanged | src/screencast/pipewire_screencast.c:374-511 | one answer of the consumer: frame rate, buffer type, fixation, fallback |
| Negotiation.FirstAloneMeaning | src/screencast/pipewire_screencast.c:425-444 | the fallback loop takes the first implicit or linear candidate that can be allocated alone, and fails exactly if all do |
| Negotiation.RoundOutcome | src/screencast/pipewire_screencast.c:400-467 | an open pick is answered by one closed offer of the picked format and current size, put first, for the modifier of a buffer allocated with the whole list, or else of the first candidate that can be allocated alone; if there is none, by shared memory only; any other pick ends the round |
| Negotiation.NegotiationSettles | src/screencast/pipewire_screencast.c:400-467 | in every run of either backend in which no replacement of constraints drops a fourcc on offer, the fourcc assertion holds, and after the fallback no offer carries a modifier |
| Negotiation.FallbackIsFinal | src/screencast/pipewire_screencast.c:446-467 | in every run of either backend, once dmabufs are avoided no offer carries a modifier and the dmabuf branch is never entered again |
| Negotiation.AssertionHoldsIff | src/screencast/pipewire_screencast.c:400-406 | the fourcc assertion survives every pick if and only if each fourcc offered with modifiers is listed in the current constraints |
| Negotiation.SilentReplacementSafeIff | src/screencast/wlr_screencopy.c:129 | in every run, replacing constraints without a new offer keeps the assertion safe if and only if it drops no fourcc on offer |
| NegotiationExamples.SilentReplacementTrips | src/screencast/wlr_screencopy.c:129 | a run of the wlr backend that commits two sets, the second without a new offer, and a legal negotiation over them that ends in a pick for which the assertion fails |
| NegotiationExamples.PairsDropSilently | src/screencast/wlr_screencopy.c:122-160 | that run of the wlr backend: the held buffer still fits and is copied into |
| Negotiation.MaxFramerateBounds | src/screencast/screencast.c:64-77 | the limit respects both bounds and reaches the lower one but for rounding; it is off exactly when there is none or the configured one is below 1 |
| Negotiation.FramerateEveryRun | src/screencast/pipewire_screencast.c:393-398 | in every run of a cast with a limit the frame rate stays within it and above 0 |
| Negotiation.OfferedRateNeverRises | src/screencast/pipewire_screencast.c:122-129 | the rate on offer at any moment of a run bounds the rate on offer at every later one |
| Negotiation.FramerateCannotRiseIff | src/screencast/pipewire_screencast.c:393-398 | no pick can raise the frame rate if and only if a rate is on offer and it is the current one |
| Negotiation.LimiterStaysOnIff | src/screencast/pipewire_screencast.c:393-398 | no pick can switch the limiter off if and only if a rate is on offer |
| NegotiationExamples.FramerateCanRise | src/screencast/pipewire_screencast.c:488-511 | a run over constraints an ext session commits in which the frame rate falls to 30 and rises to 60 again |
| Negotiation.NegotiatingCast.FindShmFormat | src/screencast/screencast_common.c:106-121 | the search finds the first entry of the picked format, if there is one |
| Negotiation.ShmPicksServedIff | src/screencast/screencast_common.c:106-121 | every shm pick can be given a buffer if and only if each format of the shm offers, without alpha included, is listed in the current constraints |
| Negotiation.FreshShmPicksServedIff | src/screencast/pipewire_screencast.c:95-102 | right after an offer that means that no stride is an unlisted format and each format with alpha is listed with its twin without |
| NegotiationExamples.PickWithoutAlphaHasNoBuffer | src/screencast/screencast_common.c:106-121 | a run over constraints an ext session commits that ends in a pick no buffer can be created for |
| DmabufFeedback.FeedbackContext.PairAdd | src/screencast/wlr_screencast.c:198-212 | a pair is appended if absent |
| DmabufFeedback.FeedbackContext.HandleFormatTable | src/screencast/wlr_screencast.c:255-271 | a new table empties the list of pairs, also when it cannot be mapped |
| DmabufFeedback.FeedbackContext.HandleTargetDevice | src/screencast/wlr_screencast.c:286-309 | the device of a tranche decides whether it is used; a device that cannot be found changes nothing |
| DmabufFeedback.FeedbackContext.HandleTrancheFormats | src/screencast/wlr_screencast.c:316-342 | in-range indices of a tranche on the used device add their entries, others nothing |
| DmabufFeedback.PairsAreNamed | src/screencast/wlr_screencast.c:255-351 | the list is duplicate-free and consists of the entries named since the last table, each kept at its first occurrence |
| DmabufFeedback.PairsInOrder | src/screencast/wlr_screencast.c:198-212 | of two listed pairs, the one listed first is the one named first |
| DmabufFeedback.SelectInOrder | src/screencast/wlr_screencast.c:334-341 | a tranche names entries in the order of its indices; indices outside the table name none |
| DmabufFeedback.PairIffNamed | src/screencast/wlr_screencast.c:255-351 | a pair is listed if and only if some tranche on the used device names it by an in-range index of the table in force, with no newer table since |
| WlrScreencopy.WlrCast.CheckConstraints | src/screencast/wlr_screencopy.c:95-120 | the search accepts a buffer exactly if its size, format and stride or modifier are announced |
| WlrScreencopy.WlrCast.HandleBuffer | src/screencast/wlr_screencopy.c:38-63 | an shm announcement is recorded and, before version 3, acted on at once |
| WlrScreencopy.WlrCast.HandleLinuxDmabuf | src/screencast/wlr_screencopy.c:65-93 | a dmabuf announcement adds the known pairs of its format |
| WlrScreencopy.PairsWithIff | src/screencast/wlr_screencopy.c:76-87 | those are exactly the known pairs of that format |
| WlrScreencopy.PairsWithInOrder | src/screencast/wlr_screencopy.c:76-87 | in the order they are known |
| WlrScreencopy.WlrCast.HandleBufferDone | src/screencast/wlr_screencopy.c:122-160 | the frame is copied into a held buffer that fits, or given up, with a new offer exactly when the buffer does not fit |
| WlrScreencopy.WlrCast.FrameFinish | src/screencast/wlr_screencopy.c:26-33 | a known frame is destroyed and forgotten |
| WlrScreencopy.WlrCast.HandleOver | src/screencast/wlr_screencopy.c:188-217 | after ready or failed nothing is held and the frame is destroyed |
| WlrScreencopy.ProtocolEveryRun | src/screencast/wlr_screencopy.c:26-217 | in every run with one frame in flight no frame is copied twice, destroyed twice, or copied after destruction; what is pending is what the frame announced on top of leftovers, and every copy fits that |
| WlrScreencopy.ReportIsAnnounced | src/screencast/wlr_screencopy.c:38-93 | in every run the report of the frame in flight is what its own events announced: last size, shm entries, known pairs of the announced formats |
| WlrScreencopy.FramesAreDisposed | src/screencast/wlr_screencopy.c:26-217 | in every run a frame that is over has been destroyed if and only if it announced an shm buffer, and one in flight has not |
| WlrScreencopy.SilentFrameLeaks | src/screencast/wlr_screencopy.c:65-93 | a run in which a frame that announces dmabufs only is given up without being destroyed |
| WlrScreencopy.CopiesFitEveryRun | src/screencast/wlr_screencopy.c:122-160 | if no frame fails halfway, every copy goes into a held buffer that fits what that very frame announced, if it announced anything |
| WlrScreencopy.CopiesIntoChecked | src/screencast/wlr_screencopy.c:129-158 | the deciding event sends a copy into a buffer if and only if the cast is initialized and the buffer fits the announcements on top of the leftovers |
| WlrScreencopy.LeftoversHarmlessIff | src/screencast/wlr_screencopy.c:129 | in every run, at every decision, only buffers the frame itself asked for can be copied into if and only if it announced all leftovers again |
| WlrScreencopy.LeftoverReachesNextFrame | src/screencast/wlr_screencopy.c:206-217 | a run in which a copy goes into a buffer its frame did not ask for |
| RandName.DecodeEncode | src/screencast/screencast_common.c:14-23 | n letters carry 5n bits and a decoder recovers them |
| RandName.NamesAreDistinct | src/screencast/screencast_common.c:14-23 | different nanosecond values give different names |
| RandName.Randname | src/screencast/screencast_common.c:14-23 | the loop writes those six letters over the template |

## Left out

- Damage.Merge: does not model 32-bit wrap-around of x + width and y + height; a rectangle's right and bottom edges are below 2^32 by its type.
- Damage.WriteDamage: the metadata has at least one region, the least that is negotiated; buffers without damage metadata are not modelled.
- Timers.TimespecAdd: negative delays, which no caller passes, and delays of 2^31 seconds or more.
- FrameLimiter.Target: floating point; the target is the exact floor of 10^9 divided by the frame rate.
- Capture.Cast.EnqueueBuffer: leaves out the frame header's sequence number, time stamp and transformation, and the y-inverted branch, which ends the instance.
- Capture.Cast.FrameCapture: the capture session exists; creating it again after it could not be created is left out.
- Capture.Cast.FrameFailed: the reasons other than a constraint mismatch end the instance; a run stops there.
- FrameLimiter.FpsLimit.MeasureEnd: the target is the exact floor instead of a floating-point quotient.
- Negotiation.NegotiatingCast.HandleParamChanged: leaves out plane counts and the buffer and metadata parameters.
- WlrScreencopy.WlrCast.HandleBufferDone: leaves out clearing the frame's damage, which the wlr backend only passes through.
- Negotiation.Pick: the numbers of a rate are unbounded.
- Negotiation.MaxFramerate: the configured limit is a real number below 2^32; output rates are whole numbers.
- WlrScreencopy.ProtocolEveryRun: overlapping frames after a pause.
- The damage and flags events of the wlr backend, which write the current frame and no constraint or request.
- Buffers that cannot be created, and every exit or abort: a run stops there.
- Changes of the screen's size during a run.
- Opening and comparing DRM devices and GBM's answers: parameters of the events that use them.
- Toplevel lifetimes, chooser processes, restore data, D-Bus messages, configuration files, logging and screenshots.
