# UniFi Protect to Google Home: verified models

A Dafny 4.11 model of the bridge that shows UniFi Protect cameras in Google Home, with proofs about the parts of it where
state, time and concurrency meet. `dafny verify dfyconfig.toml` checks everything.

What updates fields in the Go code is a class here, each method proved against a function of the old state; what the
source promises is then proved about those functions, over whole runs where a run matters.

| file | models |
|---|---|
| `ControlPlane.dfy`, `ControlPlaneLaws.dfy` | one bootstrap refresh, one connectivity event, one allow-list edit, and what runs of them do to the bridge and to Google's cache |
| `Bridge.dfy`, `Reconciler.dfy` | the same as the objects of the source: CameraSource, Reconciler, CameraApplier |
| `Rollback.dfy` | a slow refresh against live connectivity events, every interleaving at lock granularity |
| `EndToEnd.dfy` | both together, from the controller's flags to Google's cache, every step of a refresh on its own |
| `Cameras.dfy` | the camera records, the choice of an RTSP channel, its address |
| `MuxerCache.dfy`, `Streams.dfy` | the per-camera muxer caches; reference-counted streams and the WebRTC sessions that hold them |
| `Mp4Session.dfy` | sessions of a progressive MP4 muxer: subscribers, demuxers, read loops and watchdogs, interleaved |
| `Demux.dfy`, `DemuxLaws.dfy`, `Rtp.dfy`, `ParamSets.dfy`, `AnnexB.dfy` | access units to timed fragments; RTP clocks; H.264 parameter sets and framing |
| `OAuth.dfy`, `Limiter.dfy`, `StreamURLs.dfy`, `Clock.dfy`, `Text.dfy` | account linking: codes, stateless tokens, the password limit; signed stream URLs; Unix seconds and the Go string functions they use |
| `Discovery.dfy` | the UBNT discovery reply |
| `Fingerprint.dfy` | the SYNC fingerprint and the startup gate |

Assumptions, all visible in the statements that use them: a bootstrap lists no camera twice; HMAC is a function of the
payload and nobody else can sign (`OAuth.Unforged`, met by every minted token). Collisions are excluded only where
different inputs must be told apart: for stream signatures (`StreamURLs.Ideal`) and for JSON and SHA-256 of the fingerprint
together (`Fingerprint.Injective`), both over unbounded digests and both shown to be satisfiable; that equal inputs are
treated equally needs no such premise. Authorization codes are fresh; clocks do not run backwards where two readings are
compared; HomeGraph pushes arrive in order, and succeed where Google's cache is concerned.

Where the code differs from its own comments, the model follows the code:

- Refresh is said to call RequestSync on a membership change (internal/bridge/reconciler.go:275-276). A removed camera counts
  only if it had a registered stream: `ControlPlaneLaws.SyncExactly` gives the exact condition, `UnannouncedRemoval` a case.
- A WebSocket event that landed during the fetch is said to be kept (internal/bridge/reconciler.go:313-314). It can be lost
  for a camera being added, and in the window between sampling and installing the snapshot. `Rollback.NewestEventKeptExactly`
  says exactly when the newest event is kept; `Rollback.LossExactly` does for any event, with `Rollback.Loses` as the
  condition; `LostWhileAdding` and `LostInWindow` are runs that lose one.
- A refresh is said to call ReportState on an online-state change (internal/bridge/reconciler.go:275-276). What it pushes is
  the difference from the snapshot it sampled, so an event or an edit in the middle can leave Google and the bridge apart:
  `EndToEnd.PartsExactly` gives the exact moves, `ControlPlaneLaws.InstallCanPart` and `EndToEnd.LosslessIsNotEnough` cases.
- The IP info field is called a fallback (internal/discovery/discovery.go:223). It counts like the other two kinds of address
  field: the first one wins (`Discovery.FirstMACWins`).
- Parameter sets are kept by appending to a truncated slice (internal/mp4/muxer.go:375-377), which can overwrite the set already
  injected into the pending access unit: `DemuxLaws.PayloadIsInjectedExactly`, `SetOfTheNextUnit`.
- Registration is said to refuse sessions that already stopped (internal/mp4/muxer.go:124-126), which holds; but a request may
  then take the init segment of the session after its own: `Mp4Session.InitIsOwnExactly`, `InitOfAnotherSession`.

## Model

| member | source | states |
|---|---|---|
| `ControlPlaneLaws.AddressesAreExact` | unifi-protect-google-home/internal/bridge/reconciler.go:398-429 | after a refresh exactly the bootstrap cameras with an enabled channel that has an alias have an address: that of the first of their largest such channels at the controller's host up to its first colon, on port 7441; and no other camera has one |
| `ControlPlaneLaws.RefreshKeepsWellFormed` | unifi-protect-google-home/internal/bridge/reconciler.go:279-391 | a refresh on a bootstrap without repeated IDs keeps the snapshot free of repeats, generations ordered and addresses within the snapshot |
| `ControlPlaneLaws.EventKeepsWellFormed` | unifi-protect-google-home/internal/bridge/source.go:94-115 | a connectivity event keeps the same, and never adds or loses a camera |
| `ControlPlaneLaws.RefreshSettles` | unifi-protect-google-home/internal/bridge/reconciler.go:279-391 | repeating a refresh on the same bootstrap changes nothing exactly if no newer connectivity event had overruled the bootstrap with another value; without events in between it always settles |
| `ControlPlaneLaws.RepeatIsSilent` | unifi-protect-google-home/internal/bridge/reconciler.go:299-385 | the repetition pushes nothing to Google and changes no address, so nothing is registered, dropped or notified |
| `ControlPlaneLaws.CamerasAreExact` | unifi-protect-google-home/internal/bridge/reconciler.go:299-353 | the snapshot after a refresh, camera by camera: name, model and flag of the bootstrap, but the listed flag for a camera that an event has flipped since the generation was sampled; the cursor moves to a non-empty one; allow-list and generations stay |
| `ControlPlaneLaws.ReportIsExact` | unifi-protect-google-home/internal/bridge/reconciler.go:322-361 | a bootstrap camera is reported, with its new flag, exactly if it is exposed and was not listed with this flag |
| `ControlPlaneLaws.PushesAreExact` | unifi-protect-google-home/internal/bridge/reconciler.go:363-385 | no other camera is reported, and the sync, if any, and the report, if not empty, are all that is pushed |
| `ControlPlaneLaws.EditTellsExactly` | unifi-protect-google-home/internal/bridge/setupglue.go:84-119 | an accepted allow-list edit pushes a sync and then the flags of exactly the cameras whose ID is named, or of all if no ID that is not blank is |
| `ControlPlaneLaws.EditServesExactly` | unifi-protect-google-home/internal/bridge/source.go:158-177 | after the edit an address is served exactly for the cameras named, or for all if none is |
| `Bridge.EditListsExactly` | unifi-protect-google-home/internal/bridge/source.go:158-214 | after the edit exactly the cameras named are listed, or all if none is |
| `ControlPlaneLaws.SyncExactly` | unifi-protect-google-home/internal/bridge/reconciler.go:330-385 | RequestSync goes out exactly if HomeGraph is wired, it is not the first refresh, and an exposed camera of the bootstrap was not listed or a listed exposed one with a registered stream is not in the bootstrap; so a change is missed exactly if it only removes exposed cameras without one |
| `ControlPlaneLaws.UnannouncedRemoval` | unifi-protect-google-home/internal/bridge/reconciler.go:341-351 | such a missed change happens in two refreshes from the start: the one camera, without RTSP, comes and leaves, and Google hears nothing of the second |
| `ControlPlaneLaws.GoogleAgrees` | unifi-protect-google-home/internal/bridge/reconciler.go:299-385 | over all runs of refreshes, events, allow-list edits and arriving pushes: once the pushes under way have landed, Google has the current online flag of every exposed camera |
| `ControlPlaneLaws.RunAgrees` | unifi-protect-google-home/internal/bridge/setupglue.go:84-119 | the same from any agreeing state: the invariant every move keeps |
| `ControlPlaneLaws.InstallAgreesExactly` | unifi-protect-google-home/internal/bridge/reconciler.go:296-385 | with events between the sampling of the snapshot and the commit: Google still agrees exactly if no exposed camera gets back the sampled flag that an event has changed meanwhile |
| `ControlPlaneLaws.NoHiddenReported` | unifi-protect-google-home/internal/bridge/reconciler.go:461-478 | no move pushes the state of a camera that is hidden after it |
| `ControlPlaneLaws.HiddenExactly` | unifi-protect-google-home/internal/bridge/setupglue.go:84-119 | a report of a hidden camera comes to be under way exactly by an edit that hides a camera whose report is under way |
| `ControlPlaneLaws.HiddenStaysUnreported` | unifi-protect-google-home/internal/bridge/reconciler.go:355-361 | in every run without such an edit nothing that lands reports a hidden camera |
| `ControlPlaneLaws.InstallCanPart` | unifi-protect-google-home/internal/bridge/reconciler.go:296-385 | an input for which it does not: the camera goes offline between sampling and diff, the refresh reports nothing and shows it online, Google keeps it offline |
| `ControlPlaneLaws.EditCanOvertake` | unifi-protect-google-home/internal/bridge/setupglue.go:84-119 | a run from the start after which such an edit is possible |
| `EndToEnd.GoogleFollowsExactly` | unifi-protect-google-home/internal/bridge/reconciler.go:283-385 | with the refresh taken apart (begin, read, sample, one camera at a time, install, report) and events and edits in between, over all runs: Google is due to have the flag of every exposed camera throughout exactly if no move parts them, and then has it once everything has landed |
| `EndToEnd.PartsExactly` | unifi-protect-google-home/internal/bridge/reconciler.go:353-379 | they part exactly by an installation that gives an exposed camera back the sampled flag an event has changed, an event that flips an exposed camera whose report is owed, or an edit that exposes a camera whose owed report is outdated |
| `EndToEnd.PartingShows` | unifi-protect-google-home/internal/bridge/reconciler.go:461-478 | each such move leads, once the rest has landed, to a wrong flag at Google |
| `EndToEnd.RunRefines` | unifi-protect-google-home/internal/bridge/source.go:85-129 | every run of the whole is, on the flags, a run of Rollback: begin, read, sample, diff, installation and events are its steps, reports, edits and arrivals change nothing there |
| `EndToEnd.GoogleShowsController` | unifi-protect-google-home/internal/bridge/reconciler.go:283-385 | from the controller to Google: in a run that loses no delivery and never parts, once all events are delivered and all pushes have landed, Google has the flag the controller has for every exposed camera |
| `EndToEnd.LosslessIsNotEnough` | unifi-protect-google-home/internal/bridge/reconciler.go:353-379 | losing no delivery alone does not do: a run from the start in which an event overtakes the report of an installation |
| `Reconcile.Reconciler.CommitRefresh` | unifi-protect-google-home/internal/bridge/reconciler.go:283-391 | the whole refresh after the fetch computes the specified state and pushes, moves the cursor, keeps registry and address map describing the same streams, replaces a Stream object iff its address changed and none if no address did, notifies iff the address map changed, and closes and evicts exactly the cached muxers that no longer match the live lookup |
| `Reconcile.Reconciler.FinishRefresh` | unifi-protect-google-home/internal/bridge/reconciler.go:279-391 | a failed fetch changes nothing at all; a successful one is a committed refresh with all it promises and hands back the cursor |
| `Reconcile.Reconciler.Scan` | unifi-protect-google-home/internal/bridge/reconciler.go:302-328 | the loop over the bootstrap: snapshot, online changes and synchronised streams of exactly the cameras seen, all others untouched |
| `Reconcile.Reconciler.SyncStream` | unifi-protect-google-home/internal/bridge/reconciler.go:398-429 | afterwards the camera's recorded address is the wanted one, no other entry moved, and the result tells whether the address map changed |
| `Reconcile.Reconciler.SyncTo` | unifi-protect-google-home/internal/bridge/reconciler.go:398-429 | the same once the wanted address is known |
| `Reconcile.Reconciler.BestURL` | unifi-protect-google-home/internal/bridge/reconciler.go:400-414 | the one address of the camera's best channel at the controller's host, and none exactly if no channel is enabled with an alias; the error exit after choosing a channel cannot be taken |
| `Reconcile.Reconciler.DropUnseen` | unifi-protect-google-home/internal/bridge/reconciler.go:341-351 | drops exactly the streams of cameras that left, counting the exposed ones |
| `Reconcile.Reconciler.Apply` | unifi-protect-google-home/internal/bridge/reconciler.go:299-366 | registry, addresses, snapshot, counts and report of one refresh are the specified ones |
| `Reconcile.Reconciler.HandleStateChange` | unifi-protect-google-home/internal/bridge/reconciler.go:461-478 | a connectivity transition flips the one camera, and is pushed iff the camera is exposed and was listed with the other flag |
| `Reconcile.CameraApplier.ApplyExposedCameras` | unifi-protect-google-home/internal/bridge/setupglue.go:84-119 | an allow-list edit: exactly the muxers that no longer match are evicted and closed, and Google gets a sync and the state of everything exposed, or neither if it does not accept the sync |
| `Bridge.CameraSource.SetOnline` | unifi-protect-google-home/internal/bridge/source.go:94-115 | flips the camera iff it is listed with another flag, touching no other camera and no other field, stamps it with a new generation, and says so |
| `Bridge.CameraSource.SetAllowed` | unifi-protect-google-home/internal/bridge/source.go:162-177 | on return a camera is exposed iff its ID is among those given and not blank, or all given are blank; both muxer caches match the lookup and evicted muxers are closed |
| `Bridge.CameraSource.NotifyStreamsChanged` | unifi-protect-google-home/internal/bridge/source.go:140-147 | both servers evict and close exactly the muxers that no longer match, touching no other |
| `Bridge.CameraSource.ListCameras` | unifi-protect-google-home/internal/bridge/source.go:199-214 | exactly the exposed cameras, in their order in the snapshot |
| `Bridge.CameraSource.RTSPURLOf` | unifi-protect-google-home/internal/bridge/source.go:273-284 | the recorded address of a camera that has one and is exposed, nothing for any other |
| `Rollback.NoStaleRollback` | unifi-protect-google-home/internal/bridge/reconciler.go:283-353 | over all interleavings at lock granularity in which no delivery is overruled by a refresh under way: each flag shown is one the controller had since the last delivered event, hence the current one once all events are delivered |
| `Rollback.LosslessRunStaysSafe` | unifi-protect-google-home/internal/bridge/source.go:94-129 | the inductive invariant behind it, from any safe state |
| `Rollback.LossExactly` | unifi-protect-google-home/internal/bridge/reconciler.go:296-353 | at any moment of a refresh: once the next event of a listed camera has been delivered and the refresh has run to its end, the camera shows a flag the controller had since that event exactly if the refresh does not stick to one that neither this event nor a later one has |
| `Rollback.LossShows` | unifi-protect-google-home/internal/bridge/reconciler.go:296-353 | so the condition on deliveries cannot be relaxed: each delivery it excludes leads to a stale flag in a run from the start |
| `Rollback.NewestEventKeptExactly` | unifi-protect-google-home/internal/bridge/reconciler.go:313-317 | the controller's newest event, delivered anywhere between fetch and commit, is shown in the end exactly if the camera was shown during the fetch, or the flag already settled, else sampled, else read for it is the event's own |
| `Rollback.NeverStaleExactly` | unifi-protect-google-home/internal/bridge/source.go:85-115 | every step other than an installation keeps all flags fresh, whatever it overrules; so over all runs a stale flag is never shown exactly if no commit installs one |
| `Rollback.QuietRefreshHeals` | unifi-protect-google-home/internal/bridge/reconciler.go:283-353 | after any run whatever, losses included, a refresh that commits without interruption and read no flag older than the last delivered event makes every flag fresh |
| `Rollback.QuietStepsFinish` | unifi-protect-google-home/internal/bridge/reconciler.go:299-353 | the separate steps of such a commit have this effect in whichever order the cameras are handled |
| `Rollback.LostWhileAdding` | unifi-protect-google-home/internal/bridge/reconciler.go:313-317 | a run from the start that loses an event: the camera is not yet in the snapshot |
| `Rollback.LostInWindow` | unifi-protect-google-home/internal/bridge/reconciler.go:296-353 | a run from the start that loses one: a flip between the sampling and the installation of the snapshot is overwritten |
| `Rollback.EventRefines` | unifi-protect-google-home/internal/bridge/source.go:94-115 | the step relation's events do to the flags what the full control state does |
| `Rollback.RefreshRefines` | unifi-protect-google-home/internal/bridge/reconciler.go:302-353 | its refresh keeps the cameras of the full refresh |
| `Rollback.RefreshRefinesAt` | unifi-protect-google-home/internal/bridge/reconciler.go:302-321 | and gives each of them the same flag |
| `Cameras.BestIsFirstLargest` | unifi-protect-google-home/internal/unifi/types.go:40-53 | the chosen channel is enabled and has an alias, none such is larger, none such before it is as large; none is chosen iff there is none such |
| `Cameras.BestRTSPChannel` | unifi-protect-google-home/internal/unifi/types.go:40-53 | the loop finds that channel |
| `Cameras.BestChannelHasURL` | unifi-protect-google-home/internal/unifi/client.go:218-228 | a camera has a stream address iff it has an enabled channel with an alias; it names the best channel at the host without its port |
| `Cameras.AddressIsUnique` | unifi-protect-google-home/internal/unifi/client.go:218-228 | that determines the address |
| `MuxerCache.Server.MuxerFor` | unifi-protect-google-home/internal/hls/server.go:72-93 | nothing for an unknown camera, else a cached muxer with the address and TLS setting the lookup gives, the old object iff it still had both; only the evicted muxer is closed |
| `MuxerCache.Server.Prune` | unifi-protect-google-home/internal/mp4/muxer.go:681-691 | exactly the matching muxers remain, exactly the evicted ones are closed |
| `MuxerCache.SurvivorsExactly` | unifi-protect-google-home/internal/mp4/muxer.go:681-691 | a muxer matches iff the lookup knows its camera with the same address and the same TLS setting |
| `MuxerCache.Server.Shutdown` | unifi-protect-google-home/internal/mp4/muxer.go:694-702 | every cached muxer is closed and forgotten, no other is touched |
| `Streams.RunStaysBalanced` | unifi-protect-google-home/internal/streams/registry.go:49-84 | over any run that releases once per successful acquire: references equal holders, the producer is started iff someone holds it, starts minus stops is 0 or 1 |
| `Streams.Stream.Acquire` | unifi-protect-google-home/internal/streams/registry.go:49-71 | Start is never called on a running producer; the first holder gets the tracks it yields, later ones the same; a failed acquire leaves references and holders as they were |
| `Streams.Stream.Release` | unifi-protect-google-home/internal/streams/registry.go:73-84 | gives up one reference and stops the producer with the last |
| `Streams.Session.Close` | unifi-protect-google-home/internal/webrtc/peer.go:151-164 | however often it is called, the stream is released once |
| `Streams.Negotiate` | unifi-protect-google-home/internal/webrtc/peer.go:72-148 | every exit hands back a session that is open and holds the stream, or one closed by a dropped connection that holds nothing, or leaves holders and references as before; success exactly if every step of the negotiation succeeds |
| `Streams.Connect` | unifi-protect-google-home/internal/webrtc/peer.go:101-148 | once the session exists it ends closed exactly if a step fails or the connection drops, having released the stream once |
| `Mp4Session.FragmentsStayInSession` | unifi-protect-google-home/internal/mp4/muxer.go:428-499 | after any interleaving: a subscriber was sent fragments of its own session only, from after its registration, in order, after that session's init segment was built; while registered it missed only what failed to marshal or found its channel full |
| `Mp4Session.NumbersIncrease` | unifi-protect-google-home/internal/mp4/muxer.go:417-418 | hence strictly increasing sequence numbers, as the demuxer counts them, in sessions of fewer than 2^32 fragments |
| `Mp4Session.StoppedIsEmpty` | unifi-protect-google-home/internal/mp4/muxer.go:223-240 | a stopped muxer has no subscribers and no init segment, and no request is left with an open channel |
| `Mp4Session.InitIsOwnExactly` | unifi-protect-google-home/internal/mp4/muxer.go:142-148 | the init segment a waiting request takes is its own session's exactly if that session was not stopped meanwhile |
| `Mp4Session.InitOfAnotherSession` | unifi-protect-google-home/internal/mp4/muxer.go:195-213 | a reachable mix: the init segment of session 2 before fragments of session 1 |
| `Mp4Session.OnlyStopsCutSubscribers` | unifi-protect-google-home/internal/mp4/muxer.go:517-553 | of all steps only Close and the end of a read loop close a subscriber's channel: never the watchdog, a start, a late init segment or a late fragment |
| `Mp4Session.WatchdogExactly` | unifi-protect-google-home/internal/mp4/muxer.go:532-549 | after any run: the watchdog stops exactly a session without subscribers whose last access is more than 30 s ago |
| `Mp4Session.IdleExactly` | unifi-protect-google-home/internal/mp4/muxer.go:524-549 | the last access is the last request, tick with subscribers or start: without another, and without subscribers, a session survives every tick within 30 s of it and none after |
| `Mp4Session.OnlyFullChannelsMiss` | unifi-protect-google-home/internal/mp4/muxer.go:486-497 | a subscriber misses a fragment that marshals exactly if its channel holds 64 others at that moment |
| `Mp4Session.StaleReadLoopStopsNewSession` | unifi-protect-google-home/internal/mp4/muxer.go:501-515 | the read loop of a stopped session can cut off the next one's subscribers |
| `Mp4Session.StepKeepsInv` | unifi-protect-google-home/internal/mp4/muxer.go:124-140 | the invariant of all sessions, subscribers and demuxers, kept by every critical section |
| `Mp4Session.Muxer.StopLocked` | unifi-protect-google-home/internal/mp4/muxer.go:223-240 | closes each open subscriber channel once and no closed one, and refines the specified step |
| `Mp4Session.Muxer.EmitFragment` | unifi-protect-google-home/internal/mp4/muxer.go:459-499 | offers the fragment to every subscriber without ever sending on a closed channel; nothing after the session was stopped |
| `Mp4Session.Muxer.PublishInit` | unifi-protect-google-home/internal/mp4/muxer.go:428-451 | makes the init segment visible unless the session was stopped |
| `Mp4Session.Muxer.EnsureStarted` | unifi-protect-google-home/internal/mp4/muxer.go:242-253 | starts a new session iff none is running and the upstream connects |
| `Mp4Session.Muxer.Subscribe` | unifi-protect-google-home/internal/mp4/muxer.go:127-135 | registers the channel iff a session is running |
| `Mp4Session.Muxer.Tick` | unifi-protect-google-home/internal/mp4/muxer.go:517-553 | stops a session without subscribers iff its last access is more than 30 s ago; with subscribers it records an access |
| `Demux.RunDemux` | unifi-protect-google-home/internal/mp4/muxer.go:348-424 | for every input: one fragment for each access unit from the one the init segment is built at, except the last, each the specified one |
| `Demux.Harvest` | unifi-protect-google-home/internal/mp4/muxer.go:369-379 | the in-place replacement of the stored parameter sets, and what it does to a slice of their buffers held elsewhere |
| `Demux.Backfill` | unifi-protect-google-home/internal/mp4/muxer.go:411-415 | the duration is the signed 32-bit gap, or 1/30 s; it lies in 1..2^31-1, so the cast keeps it |
| `Demux.GapIsDelta` | unifi-protect-google-home/internal/mp4/muxer.go:385-411 | the difference of two successive presentation times is that gap, however often their 64-bit clock has wrapped |
| `DemuxLaws.StartsAtFirst` | unifi-protect-google-home/internal/mp4/muxer.go:392-401 | a session's fragments start at the first access unit at which both parameter sets are known and the init segment marshals |
| `DemuxLaws.FragmentAt` | unifi-protect-google-home/internal/mp4/muxer.go:403-422 | fragment i is access unit f + i: each once and in order |
| `DemuxLaws.DurationExactly` | unifi-protect-google-home/internal/mp4/muxer.go:389-415 | a fragment lasts as many 90 kHz ticks as the next timestamp is ahead modulo 2^32, or 3000 if that is none or 2^31 and more |
| `DemuxLaws.FragmentsAreContiguous` | unifi-protect-google-home/internal/mp4/muxer.go:417-421 | each fragment starts where the one before it ends, as 64 bits count, the first at 0 |
| `DemuxLaws.NumbersIncreaseExactly` | unifi-protect-google-home/internal/mp4/muxer.go:417-418 | sequence numbers run 1, 2, 3, ... and increase throughout exactly in sessions of fewer than 2^32 fragments |
| `DemuxLaws.BaseTimeIsBase` | unifi-protect-google-home/internal/mp4/muxer.go:419-421 | the 64-bit base time is the sum of the durations before it, modulo 2^64 |
| `DemuxLaws.DriftIsExact` | unifi-protect-google-home/internal/mp4/muxer.go:410-421 | base time never runs behind presentation time, the difference never shrinks, and there is none exactly if every gap is positive |
| `DemuxLaws.ElapsedIsClock` | unifi-protect-google-home/internal/mp4/muxer.go:385-390 | the presentation time meant is the accumulated clock before wrapping |
| `DemuxLaws.BaseIsTrueExactly` | unifi-protect-google-home/internal/mp4/muxer.go:383-421 | against true capture times: every base time is true exactly if every true gap is positive and below 2^31 ticks |
| `DemuxLaws.PayloadKeepsUnits` | unifi-protect-google-home/internal/mp4/muxer.go:403-418 | a fragment is its whole access unit behind at most two parameter sets, and is a sync sample exactly if it holds an IDR |
| `DemuxLaws.PayloadIsInjectedExactly` | unifi-protect-google-home/internal/mp4/muxer.go:369-381 | a fragment carries the parameter sets known when its access unit arrived exactly if at each position of an injected set the last one stored there by the next access unit, while it shares the buffer, has the same byte |
| `DemuxLaws.SeenIsLast` | unifi-protect-google-home/internal/mp4/muxer.go:369-379 | what a slice held elsewhere reads after an access unit's sets were stored: at each position the byte of the last one stored over it before the buffer was replaced |
| `DemuxLaws.SetOfTheNextUnit` | unifi-protect-google-home/internal/mp4/muxer.go:375-381 | the overwriting does happen: an IDR sent with the parameter set that came after it |
| `DemuxLaws.SetIsLatest` | unifi-protect-google-home/internal/mp4/muxer.go:369-379 | buffer reuse never corrupts the current sets: they are the latest received, in band before the SDP's |
| `Rtp.UnwrapsExactly` | unifi-protect-google-home/internal/hls/muxer.go:227-252 | every accumulated presentation time is the true elapsed time exactly if every gap between true times fits in 32 signed bits, after any number of wraps |
| `Rtp.DeltaIsGap` | unifi-protect-google-home/internal/mp4/muxer.go:389-390 | the same for one step |
| `Rtp.Add64Wraps` | unifi-protect-google-home/internal/mp4/muxer.go:421 | the addition of base times is that of 64 bits: modulo 2^64 |
| `Rtp.Timeline.Advance` | unifi-protect-google-home/internal/hls/muxer.go:227-252 | the callback's clock is the sum of the differences up to multiples of 2^64, and exactly that while an int64 holds it |
| `ParamSets.InjectMP4` | unifi-protect-google-home/internal/mp4/muxer.go:557-587 | computes the one specified injection |
| `ParamSets.InjectHLS` | unifi-protect-google-home/internal/hls/muxer.go:329-358 | the other form computes the same |
| `ParamSets.InjectKeeps` | unifi-protect-google-home/internal/rtsp/client.go:311-340 | the access unit stays the tail and keeps its IDR flag, whatever the parameter sets hold |
| `ParamSets.InjectsExactly` | unifi-protect-google-home/internal/mp4/muxer.go:557-587 | a set is put in front exactly if both are known, the access unit holds a unit of type 5, and none of the type of that set |
| `ParamSets.InjectCompletes` | unifi-protect-google-home/internal/mp4/muxer.go:557-587 | with both sets known and of their type, an access unit with an IDR has both, the missing ones first and the SPS before the PPS |
| `ParamSets.InjectIsIdempotent` | unifi-protect-google-home/internal/hls/muxer.go:329-358 | injecting again changes nothing |
| `ParamSets.ContainsIDR` | unifi-protect-google-home/internal/mp4/muxer.go:589-596 | finds a unit of type 5 in its low five bits iff there is one |
| `AnnexB.EncodeAnnexB` | unifi-protect-google-home/internal/rtsp/client.go:295-306 | the precomputed capacity is exactly the size of the framed result |
| `AnnexB.DecodesExactly` | unifi-protect-google-home/internal/rtsp/client.go:295-306 | the byte-stream decoder of ITU-T H.264 recovers the units exactly if none holds a start code and none but the last ends in a zero byte |
| `AnnexB.UnitEndExactly` | unifi-protect-google-home/internal/rtsp/client.go:295-306 | the same for one unit and what follows it |
| `AnnexB.FramingIsInjective` | unifi-protect-google-home/internal/rtsp/client.go:295-306 | so on such units different lists never look alike |
| `Limiter.WindowIsBounded` | unifi-protect-google-home/internal/oauth/server.go:42-48 | over any run in which at most c other failures are recorded between the check of an attempt and its own failure, no 15-minute window holds more than 5 + c recorded failures of one address or 20 + c in all; c = 0 is the limit of the source |
| `Limiter.BoundIsReached` | unifi-protect-google-home/internal/oauth/server.go:130-159 | 5 + c is reached: with c attempts beside each other the check lets that many of one address through at once |
| `Limiter.BlockedExactly` | unifi-protect-google-home/internal/oauth/server.go:130-150 | an attempt is blocked exactly by 5 recorded failures of its address, or 20 in all, less than 15 minutes old |
| `Limiter.LiftedAfterWindow` | unifi-protect-google-home/internal/oauth/server.go:42-48 | so 15 minutes after the last failure the limit is lifted |
| `Limiter.Limiter.TooManyFailures` | unifi-protect-google-home/internal/oauth/server.go:130-150 | the answer is blocked exactly if 5 failures of this address, or 20 in all, of the whole history are less than 15 minutes old; the pruned map keeps exactly those |
| `Limiter.Limiter.RecordFailure` | unifi-protect-google-home/internal/oauth/server.go:152-159 | appends one failure, checked against the history as it was up to c failures before, and keeps the agreement and the bound |
| `Limiter.PrunedTracks` | unifi-protect-google-home/internal/oauth/server.go:135-149 | pruning every key loses nothing in force and counts all of it |
| `OAuth.Provenance` | unifi-protect-google-home/internal/oauth/server.go:269-366 | if nobody else can sign: every accepted access token was minted by the server from an exchange, directly or through a refresh token, of a code issued for the right password to an allowed URI, made with that URI within ten minutes; and less than an hour and a second have passed since it was minted |
| `OAuth.MintedIsUnforged` | unifi-protect-google-home/internal/oauth/server.go:322-366 | every token the server minted meets the premise on forgery |
| `OAuth.CodesWorkOnce` | unifi-protect-google-home/internal/oauth/server.go:273-282 | no code is exchanged twice in any run, restarts included |
| `OAuth.MintedVerifiesExactly` | unifi-protect-google-home/internal/oauth/server.go:322-366 | a minted token splits back into its four parts and verifies exactly as its own kind and until the second of its expiry is over |
| `OAuth.MintedLives` | unifi-protect-google-home/internal/oauth/server.go:322-356 | a token minted at a time verifies throughout the hour, or the ten years, from then on, and no more a second later |
| `OAuth.Expiry` | unifi-protect-google-home/internal/oauth/server.go:330 | the expiry written is the last whole second of that lifetime |
| `OAuth.VerifiesExactly` | unifi-protect-google-home/internal/oauth/server.go:339-366 | what verifies at all: exactly the signed texts of the wanted kind with an expiry whose second is not over and parts without dots; nothing without a key |
| `OAuth.Server.Authorize` | unifi-protect-google-home/internal/oauth/server.go:165-239 | a code, good for ten minutes, is issued exactly for the configured client, response type code, an allowed redirect URI, a readable form and the right password, unless the limit blocks it; each refusal in the order of the source; a wrong password, and only that, is recorded |
| `OAuth.Server.Redeem` | unifi-protect-google-home/internal/oauth/server.go:269-282 | a code is spent by any attempt and good exactly if outstanding, unexpired and presented with its URI |
| `OAuth.Server.ExchangeCode` | unifi-protect-google-home/internal/oauth/server.go:269-295 | a good code buys both tokens iff the server has a key |
| `OAuth.Server.RefreshAccess` | unifi-protect-google-home/internal/oauth/server.go:297-309 | a refresh token buys an access token exactly while it verifies |
| `OAuth.Server.Validate` | unifi-protect-google-home/internal/oauth/server.go:311-314 | acceptance is verification, and an accepted token has the history of Provenance |
| `OAuth.Server.Mint` | unifi-protect-google-home/internal/oauth/server.go:322-336 | the token is the specified one, and the log stays good |
| `OAuth.Server.Restart` | unifi-protect-google-home/internal/oauth/server.go:83-92 | codes and recorded failures are forgotten, tokens already out keep their history |
| `StreamURLs.PayloadInjective` | unifi-protect-google-home/internal/api/server.go:140-144 | the signed text determines camera and expiry, whatever characters the ID holds |
| `StreamURLs.TokenBindsOnePair` | unifi-protect-google-home/internal/api/server.go:140-159 | a signature opens its camera until its expiry, and with an injective MAC nothing else |
| `StreamURLs.IdealIsMet` | unifi-protect-google-home/internal/api/server.go:140-144 | there are signing functions without collisions |
| `StreamURLs.HLSRoundTrip` | unifi-protect-google-home/internal/api/server.go:116-129 | an issued HLS URL reaches the playlist of its camera exactly until it expires, for IDs without a slash |
| `StreamURLs.MP4RoundTrip` | unifi-protect-google-home/internal/api/server.go:131-138 | an issued MP4 URL with its credential reaches its camera exactly until it expires |
| `StreamURLs.HLSOpensExactly` | unifi-protect-google-home/internal/api/server.go:281-298 | what the HLS handler hands on at all: exactly the paths of camera, unexpired expiry, their signature and a rest, as camera and rest |
| `StreamURLs.MP4OpensExactly` | unifi-protect-google-home/internal/api/server.go:308-342 | the same for the MP4 handler, with expiry and signature in the bearer credential |
| `StreamURLs.URLsLiveAnHour` | unifi-protect-google-home/internal/api/server.go:116-138 | URLs issued at a time reach their camera throughout the hour from then on and are expired a second later |
| `StreamURLs.RouteFinds` | unifi-protect-google-home/internal/hls/server.go:35-66 | behind the handler both servers find the camera again |
| `Text.SplitIsInverseOfJoin` | unifi-protect-google-home/internal/oauth/server.go:343-346 | splitting at the separator inverts joining parts that do not hold it |
| `Text.SplitParts` | unifi-protect-google-home/internal/oauth/server.go:343-346 | and joining inverts splitting, whose parts never hold it |
| `Text.ParseFormat` | unifi-protect-google-home/internal/oauth/server.go:331-353 | reading back a formatted 64-bit integer gives it |
| `Text.ParseExactly` | unifi-protect-google-home/internal/oauth/server.go:351-353 | what is read at all, and as which number: an optional sign, any zeros and the digits of a 64-bit integer |
| `Text.DigitsExactly` | unifi-protect-google-home/internal/oauth/server.go:331 | the digits are the decimal ones |
| `Discovery.ParseResponse` | unifi-protect-google-home/internal/discovery/discovery.go:178-249 | the loop computes the specified reading of any datagram, in bounds and terminating; a device comes of exactly the datagrams of version 1 command 0, version 2 commands 6 and 9, and version 0 with an announced length; version 1 from another port than 10001 gives the bare address |
| `Discovery.ReplyReadsCompleteFields` | unifi-protect-google-home/internal/discovery/discovery.go:178-249 | a reply cut off anywhere past its header is read as exactly its complete fields, uncut as all of them |
| `Discovery.CompleteIsGreatest` | unifi-protect-google-home/internal/discovery/discovery.go:210-215 | complete means: the most fields that fit in what arrived |
| `Discovery.TrailingIsIgnored` | unifi-protect-google-home/internal/discovery/discovery.go:202-207 | bytes past the announced length change nothing |
| `Discovery.FirstMACWins` | unifi-protect-google-home/internal/discovery/discovery.go:217-226 | the first well-formed address wins, whichever of the three kinds of field carries it |
| `Discovery.FormatMACAt` | unifi-protect-google-home/internal/discovery/discovery.go:251-263 | the text of an address: two lower-case hexadecimal digits a byte, the high one first, with colons between |
| `Discovery.UptimeReadsBack` | unifi-protect-google-home/internal/discovery/discovery.go:229-232 | a 32-bit uptime sent big-endian is read back |
| `Discovery.LastValueWins` | unifi-protect-google-home/internal/discovery/discovery.go:227-245 | later texts replace earlier ones, as do later four-byte uptimes |
| `Fingerprint.FingerprintIsCanonical` | unifi-protect-google-home/internal/ghome/intents.go:178-193 | whatever the hash, with distinct IDs: the same agent user ID, the default standing for none, and the same set of devices give the same fingerprint |
| `Fingerprint.FingerprintTellsApart` | unifi-protect-google-home/internal/ghome/intents.go:168-193 | without hash collisions the same fingerprint means the same agent user ID, the default standing for none, and the same set of devices |
| `Fingerprint.FingerprintExactly` | unifi-protect-google-home/internal/ghome/intents.go:180-193 | both directions together |
| `Fingerprint.InjectiveIsMet` | unifi-protect-google-home/internal/ghome/intents.go:187-192 | there are functions of agent user ID and device list without collisions |
| `Fingerprint.OnlyOrderAndStateDoNotMatter` | unifi-protect-google-home/internal/ghome/intents.go:130-178 | the device sets are the same exactly if the cameras are, up to their order and who is online |
| `Fingerprint.SyncFingerprint` | unifi-protect-google-home/internal/ghome/intents.go:180-193 | the digest is that of the devices sorted by ID |
| `Fingerprint.SortByID` | unifi-protect-google-home/internal/ghome/intents.go:182-184 | a sorted permutation |
| `Fingerprint.SortedIsUnique` | unifi-protect-google-home/internal/ghome/intents.go:178-184 | with distinct IDs there is only one, so any sorting algorithm gives it |
| `Fingerprint.LessExactly` | unifi-protect-google-home/internal/ghome/intents.go:184 | the order is that of the characters at the first difference, a prefix first |
| `Fingerprint.SyncState.StartupRequestSync` | unifi-protect-google-home/internal/bridge/setupglue.go:26-57 | a request goes out iff the fingerprint found in a readable file differs from the current one; the file changes only after success |
| `Fingerprint.QuotaIsBounded` | unifi-protect-google-home/internal/bridge/setupglue.go:22-57 | over any series of starts: successful requests are at most one more than the changes of the fingerprint and the faults of the state file |
| `Fingerprint.UnchangedSyncsOnce` | unifi-protect-google-home/internal/bridge/setupglue.go:22-57 | with an unchanged fingerprint and a working file exactly one succeeds, at the first start Google accepts it, and none if already announced |

## Left out

- Rollback.NoStaleRollback: claims nothing for runs in which `Loses` holds of some delivery; `LossShows` shows what then happens, `NeverStaleExactly` and `QuietRefreshHeals` cover all runs.
- ControlPlaneLaws.NoHiddenReported: is about what a move pushes; `HiddenExactly` says how a report of a hidden camera can still be under way, and `EditCanOvertake` that it can.
- ControlPlaneLaws.GoogleAgrees: a refresh commits in one go, which `EndToEnd.GoogleFollowsExactly` takes apart.
- ControlPlaneLaws.RunAgrees: under the same assumption.
- EndToEnd.GoogleFollowsExactly: pushes succeed and arrive in the order they are made, while the code makes each call on a goroutine of its own and retries none; an event's flip, its check against the allow-list and its push are one move, and so are the filtering and the push of a report.
- EndToEnd.GoogleShowsController: the same; events are delivered in order and none is skipped.
- Mp4Session.NumbersIncrease: one way only; a subscriber that happens to miss the right fragments may see increasing numbers across the 32-bit wrap too.
- Limiter.Limiter.TooManyFailures: readings of the clock are in the order of the critical sections; the code reads it just before it takes the lock.
- OAuth.Server.Authorize: the check and the recording of one attempt with nothing in between; `Limiter` has the bound for attempts side by side.
- OAuth.Provenance: forgery is excluded by the premise `Unforged`; HMAC itself, random codes and nonces, and a failing random source are not modelled.
- StreamURLs.HLSRoundTrip: paths as the handlers see them; URL escaping is not modelled, and IDs with a slash are excluded because the handler splits there.
- Fingerprint.FingerprintExactly: which names count as doorbells is a parameter; JSON of invalid UTF-8 is not modelled.
- Streams.Negotiate: the state-change callback runs at one point after the tracks are attached; closing is idempotent, so a later point differs only in how long the stream is held.
- Cameras.BestRTSPChannel: width times height in unbounded integers.
- ControlPlane.EventStep: the online generation is an unbounded number, a 64-bit counter in the code.
- RTSP, WebRTC, HLS and fMP4 libraries: what they answer is a parameter; marshalling is an event that may fail.
- Timers, retries, backoff, the 50 ms poll for the init segment and all liveness: time only enters as readings of a clock.
- Connecting to the WebSocket, skipped or lost events, and the decoding of its frames.
- That a muxer evicted from a cache cannot be restarted by a request already holding it: the code keeps no closed flag.
- The HLS muxer's own sessions, and the RTSP producer's reconnect loop.
- The token endpoint's client authentication and grant dispatch, the consent page, and the parsing of redirect URIs (`redirectOK` stands for it).
- SYNC, QUERY and EXECUTE plumbing, signaling, doorbell notifications, the setup UI, configuration and logging: field copying or single branches.
- Merging several discovery replies of one device, and the UDP exchange around them.
