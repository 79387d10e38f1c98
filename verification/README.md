# Avella: a verified model

Avella is a daemon that files away downloads (Go) and a menu bar client that shows what it does
(Swift). This project models the parts whose behaviour only shows over whole runs and proves what
they keep. To verify: `dafny verify dfyconfig.toml`.

**The tray/daemon socket.** `Framing`, `Protocol` and `Backoff` hold the wire format, the messages and
the reconnect intervals. `TrayActor` gives the transitions of the tray's `SocketClient` as functions,
`TrayClient` the class that carries them out, `TrayRuns` the runs of the client under late, reordered
and repeated callbacks, `TrayEvents` the grammar of the events it emits, `TrayStream` its independence
of chunking, `TrayView` the view model as a fold over the events. `DaemonUi` and `DaemonRuns` are the
server: sections under its lock, and runs in which several broadcasts write at once; `Backlog` says
what a client ends up with when several writes to it are pending. `Delivery` composes both programs
through the bytes between them. `Notifications`, `NotifyDelivery`, `Overtaking` and `Sessions` compare
what the tray announces with what the daemon processed: in order, along a connection, with snapshots
in any order, and across reconnects.

**The file pipeline.** `Stabilizer` and `Watcher` find settled files, `Tracker` remembers processed
versions, `Pipeline` interleaves file handling with toggles, reloads, prunes and shutdown, `Runtime`
holds the runtime state's methods, `ConfigWatch` the debounce of config reloads.

**The rule engine.** `Config` is validation, `Engine` the compile step and matching, `Process` the
interpreter with its action traces, `Disk` the file system the actions work on, `Custody` what becomes
of the file's bytes.

**Connections.** `SshPool` accounts for every SSH client and agent socket.

Code that changes state step by step is a class whose methods are proved against specification
functions; code whose steps interleave with other goroutines or callbacks is a step function over a
state value, and its theorems quantify over every sequence of steps. A step that is not possible in a
state leaves it unchanged, so every sequence is a run.

## Where the code falls short of what it says

- A configuration reload works once per daemon life. The channel variable is cleared when a reload
  runs (main.go:386) and set only where the timer is created (main.go:345-348), against the comment
  above the function. `ConfigWatch.ReloadsOnlyOnce` proves it for every run.
- The receive loop finishes a chunk after a refused hello, against the comment in
  SocketClient.swift:230-231: a second hello in the chunk can still lead to events.
  `TrayEvents.GrammarOfRuns` gives the exact condition, `Delivery.TwoHellosRun` a run that reaches it.
  After that run the view says connected for good though the client has given up; this happens
  exactly if a chunk holds, behind a refused hello and with no refused one after it, a snapshot behind
  an accepted hello (`TrayView.ConnectedViewMeansReady`, `TrayView.MismatchIsAbsorbing`).
- A toggle between the moment a reload reads the mode and the moment it swaps the engine in is lost
  on the new engine (main.go:406-418): `Pipeline.ToggleDuringReloadIsLost`. Runtime and engine disagree
  exactly while the last swapped engine was built before a toggle that changed the mode
  (`Pipeline.DisagreementExactly`). Callbacks of two clients can overtake each other
  (ui/socket.go:258-272): `Pipeline.OvertakingToggleMisleads`. The flag of the daemon's UI
  is sure to end up as the runtime's mode exactly if every callback under way carries the flag as it is
  now (`Pipeline.ShownModeExactly`).
- Overlapping broadcasts can leave a client with an old snapshot (ui/socket.go:316-318):
  `DaemonRuns.OverlapDeliversStale`. A client is sure to end up with a snapshot or a later one exactly
  if no write pending for it is older (`Backlog.LatestDeliveredExactly`). SetRules is not broadcast at
  all (ui/socket.go:68-72).
- When a move's destination is another name of the source (a hard link, the same directory reached
  through another mount) and the rename fails with a link error, the copy truncates the file it is
  about to read (actions/move.go:57-95). `Disk.MoveKeepsBytesUnlessAliased` is the exact condition
  for one move, `Custody.BytesSurviveExactly` for a whole rule.
- `TypeName` and `FromConfig` try scp and exec in different orders: `Engine.ShownKindIsBuiltKind`.
- `min_age_seconds` above 9223372036 overflows the duration: `Engine.AgeFitsExactly`.
- The tray's count of new files is off for two reasons. With lists in order, exactly when a newly
  listed entry shares file name, time and rule with the entry that headed the previous list
  (`Notifications.CountIsExact`). With distinct entries and lists in any order, exactly when the list
  was overtaken by a newer one and is not empty: then all of it counts as new
  (`Overtaking.CountInAnyOrder`). `Overtaking.ToggleOvertakenRepeats` is a run of the daemon in which a
  toggle's broadcast is overtaken and a file is announced twice; `Overtaking.PostedExactly` and
  `Overtaking.PostedOnceExactly` say exactly when updates in any order are announced rightly and once.

## Model

| member | source | states |
|---|---|---|
| Framing.SplitIsFaithful | tray/Sources/AvellaTrayLib/SocketClient.swift:23-33 | the lines taken out, framed again, followed by what stays pending, are the bytes put in; neither lines nor rest contain a newline |
| Framing.SplitIsUnique | tray/Sources/AvellaTrayLib/SocketClient.swift:23-33 | any division of the bytes with that property is the one computed |
| Framing.SplitAppend | tray/Sources/AvellaTrayLib/SocketClient.swift:23-33 | splitting in two steps with the rest carried over gives the same lines and rest as splitting at once |
| Framing.FeedIgnoresChunking | tray/Sources/AvellaTrayLib/SocketClient.swift:23-36 | for every chunking the lines returned and the bytes kept depend on the concatenation only, and what is kept has no newline |
| Framing.FramingRoundTrip | ui/socket.go:328-341 | newline-free messages framed by the daemon come out of the tray's buffer one for one, however the stream is cut, and nothing stays behind |
| Framing.TruncatedStream | ui/socket.go:328-341 | any first part of a framed stream yields a first part of the messages, unaltered |
| Framing.LineBuffer.Append | tray/Sources/AvellaTrayLib/SocketClient.swift:23-33 | the loop returns exactly the completed lines and keeps the unterminated rest |
| Backoff.DelayStep | tray/Sources/AvellaTrayLib/SocketClient.swift:58-62 | doubling with a cap takes the k-th interval min(initial * 2^k, cap) to the next one |
| Backoff.DelayMonotone | tray/Sources/AvellaTrayLib/SocketClient.swift:40-62 | intervals never shrink between resets and stay between the initial one and the cap |
| Backoff.Backoff.Next | tray/Sources/AvellaTrayLib/SocketClient.swift:58-62 | hands out the current interval and moves from the k-th to the next of the closed form |
| Backoff.Backoff.Reset | tray/Sources/AvellaTrayLib/SocketClient.swift:64-66 | back to the first interval |
| TrayClient.SocketClient.Start | tray/Sources/AvellaTrayLib/SocketClient.swift:102-105 | clears the stop flag and opens a connection, as the transition of the runs says |
| TrayClient.SocketClient.Stop | tray/Sources/AvellaTrayLib/SocketClient.swift:107-112 | cancels the sleeping reconnect, closes, reports a disconnect only if a connection was open |
| TrayClient.SocketClient.Connect | tray/Sources/AvellaTrayLib/SocketClient.swift:162-182 | unless stopped: new generation, handshake cleared, empty buffer, connection tagged with the new generation |
| TrayClient.SocketClient.CloseConnection | tray/Sources/AvellaTrayLib/SocketClient.swift:263-275 | always a new generation and not ready; a disconnect is reported only for an open connection |
| TrayClient.SocketClient.ScheduleReconnect | tray/Sources/AvellaTrayLib/SocketClient.swift:277-286 | unless stopped: the old task is cancelled, one new one waits the current interval, the interval advances |
| TrayClient.SocketClient.HandleStateUpdate | tray/Sources/AvellaTrayLib/SocketClient.swift:184-202 | callbacks of another generation change nothing; ready resets the backoff and starts receiving; waiting, failed and cancelled close and schedule |
| TrayClient.SocketClient.HandleReceive | tray/Sources/AvellaTrayLib/SocketClient.swift:214-234 | the loop over the chunk's lines followed by close-and-schedule or the next receive is the transition of the runs, for every chunk |
| TrayClient.SocketClient.ProcessLine | tray/Sources/AvellaTrayLib/SocketClient.swift:236-261 | empty and undecodable lines change nothing, every other line is its message's transition |
| TrayClient.SocketClient.TaskConnects | tray/Sources/AvellaTrayLib/SocketClient.swift:281-285 | a reconnect task past its cancellation check connects unless the client has been stopped |
| TrayActor.BadLinesAreIgnored | tray/Sources/AvellaTrayLib/SocketClient.swift:237-240 | empty and undecodable lines change nothing wherever they come in the stream |
| TrayActor.GuardedCallbacks | tray/Sources/AvellaTrayLib/SocketClient.swift:184-215 | callbacks of another generation change nothing, nor does a receive at a stopped client |
| TrayRuns.GenerationSafety | tray/Sources/AvellaTrayLib/SocketClient.swift:153-286 | in every run no callback tag exceeds the generation, one that equals it belongs to the open connection, and each connection has at most one receive outstanding |
| TrayRuns.OneReconnect | tray/Sources/AvellaTrayLib/SocketClient.swift:277-286 | in every run at most one reconnect is pending, and none while a connection is open |
| TrayRuns.BackoffOverRuns | tray/Sources/AvellaTrayLib/SocketClient.swift:184-202 | in every run the k-th reconnect since the last ready waits min(2^k, 10) seconds, counting from zero, whatever stale callbacks arrive |
| TrayRuns.StaleCallbacksChangeNothing | tray/Sources/AvellaTrayLib/SocketClient.swift:153-158 | any sequence of callbacks with older tags leaves the actor as it is, apart from the receives it consumes |
| TrayRuns.OneDisconnect | tray/Sources/AvellaTrayLib/SocketClient.swift:130-140 | one disconnect reported by any number of callbacks closes once, schedules one reconnect with the current interval and doubles the interval, up to the cap, once |
| TrayRuns.StopIsFinal | tray/Sources/AvellaTrayLib/SocketClient.swift:107-112 | in every started run: a stop reports the end of an open connection, and whatever still arrives or wakes up, nothing is reported, dialled or scheduled again |
| TrayEvents.LiveChunk | tray/Sources/AvellaTrayLib/SocketClient.swift:217-222 | a chunk keeps the event grammar, and emits what its messages call for, exactly if nothing behind a refused hello would be emitted |
| TrayEvents.GrammarOfRuns | tray/Sources/AvellaTrayLib/SocketClient.swift:184-286 | in every run: snapshots and mismatches only between connected and disconnected, nothing after a mismatch -- exactly if every chunk is quiet; and the stream says connected exactly while the actor is ready |
| TrayEvents.MismatchIsFinal | tray/Sources/AvellaTrayLib/SocketClient.swift:244-251 | in every run, whatever its chunks hold: once a mismatch has been emitted no continuation emits an event, opens a connection or has a reconnect pending |
| TrayEvents.OpenMeansQuiet | tray/Sources/AvellaTrayLib/SocketClient.swift:214-234 | as long as a connection is open, every chunk of the run so far has been quiet |
| TrayEvents.TwoHellosInOneChunk | tray/Sources/AvellaTrayLib/SocketClient.swift:217-222 | at any connected client: an accepted hello, a refused one and a snapshot in one chunk make it give up and still emit the snapshot |
| TrayStream.QuietStream | tray/Sources/AvellaTrayLib/SocketClient.swift:204-234 | for a quiet stream any chunking, with stale callbacks, task wake-ups and further starts in between, emits the events the whole stream calls for |
| TrayStream.ChunkingDoesNotMatter | tray/Sources/AvellaTrayLib/SocketClient.swift:204-234 | in every reachable ready state the events are the same for all deliveries of the bytes exactly if the stream is quiet, and are then those its messages call for |
| TrayStream.ByteByByte | tray/Sources/AvellaTrayLib/SocketClient.swift:204-234 | received byte by byte every stream, quiet or not, emits what its messages call for |
| TrayStream.OneHelloIsQuiet | tray/Sources/AvellaTrayLib/SocketClient.swift:242-252 | a stream with at most one hello, none once greeted, is quiet |
| TrayView.ConnectedShowsLastSnapshot | tray/Sources/AvellaTrayLib/TrayViewModel.swift:69-101 | the view is connected exactly if only connected events followed the last snapshot, and then all its fields are that snapshot's |
| TrayView.DisconnectClears | tray/Sources/AvellaTrayLib/TrayViewModel.swift:90-97 | after a disconnect, until the next snapshot, nothing of the last one is shown but the daemon's version |
| TrayView.NothingBeforeSnapshot | tray/Sources/AvellaTrayLib/TrayViewModel.swift:36-41 | before the first snapshot nothing but a mismatch is shown |
| TrayView.ConnectedViewMeansReady | tray/Sources/AvellaTrayLib/TrayViewModel.swift:69-88 | in every run a connected view shows the last snapshot emitted, and the connection is ready exactly unless some chunk held, behind its last refused hello, a snapshot behind an accepted hello |
| TrayView.MismatchIsAbsorbing | tray/Sources/AvellaTrayLib/TrayViewModel.swift:99-101 | in every run the view never changes once a mismatch has been emitted; it shows the last refused version, exactly unless such a chunk has deceived it, and connected otherwise |
| TrayView.ViewAfterChunk | tray/Sources/AvellaTrayLib/SocketClient.swift:217-222 | one chunk that ends a connected client leaves the view connected exactly if it holds, behind its last refused hello, a snapshot that is accepted, and showing the last refused version otherwise |
| TrayView.TrayViewModel.Update | tray/Sources/AvellaTrayLib/TrayViewModel.swift:80-88 | every field is taken from the snapshot |
| TrayView.TrayViewModel.SetDisconnected | tray/Sources/AvellaTrayLib/TrayViewModel.swift:90-97 | all fields are cleared except the version |
| TrayView.TrayViewModel.SetProtocolMismatch | tray/Sources/AvellaTrayLib/TrayViewModel.swift:99-101 | only the connection state changes |
| TrayView.TrayViewModel.Consume | tray/Sources/AvellaTrayLib/AppDelegate.swift:51-72 | the event loop leaves the view that the fold over the events gives |
| DaemonUi.SocketUI.AddRecentFile | ui/socket.go:113-121 | prepends, keeps ten, and takes the broadcast's snapshot and targets in the same section |
| DaemonUi.SocketUI.ToggleDryRun | ui/socket.go:258-263 | flips the flag and reports the new value along with the snapshot that shows it |
| DaemonUi.SocketUI.SetStatus | ui/socket.go:97-102 | changes the status only, then snapshots |
| DaemonUi.SocketUI.IncProcessed | ui/socket.go:105-110 | counts one more, then snapshots |
| DaemonUi.SocketUI.SetRules | ui/socket.go:68-72 | replaces the rules without a broadcast |
| DaemonUi.SocketUI.FinishBroadcast | ui/socket.go:318-323 | exactly the failed clients leave the set |
| DaemonUi.WriteToClients | ui/socket.go:344-355 | every client is written to; those returned are exactly those whose write failed |
| DaemonRuns.ClientSetIsExact | ui/socket.go:211-240 | in every run, between broadcasts, the clients are the accepted connections that were neither closed nor failed |
| DaemonRuns.RunsGrow | ui/socket.go:306-388 | runs only append to the log of states and to the wires, and a connection keeps its registration point |
| DaemonRuns.StatesAreHistory | ui/socket.go:68-121 | in every run each state has the initial count plus the files counted, the initial flag flipped once per toggle, the last status and rules set, and the initial path and version |
| DaemonRuns.AllButRulesIsBroadcast | ui/socket.go:68-121 | in every run the latest broadcast is that of the last change other than SetRules |
| DaemonRuns.HangUpIsFinal | ui/socket.go:233-240 | a client that hangs up leaves the set, and no continuation writes to it or takes it back |
| DaemonRuns.AcceptedMeaning | ui/socket.go:357-388 | the snapshots a client accepts are exactly the state lines with a hello somewhere before them |
| DaemonRuns.AcceptedStatesAreReal | ui/socket.go:222-227 | in every run each accepted snapshot is a value the state had since the connection was registered, though broadcasts can overtake the hello |
| DaemonRuns.SerialDelivery | ui/socket.go:303-324 | in runs without overlapping writes a client accepts states in the order they were made, ending at the last broadcast state or a later connect snapshot once no write is pending |
| DaemonRuns.OverlapDeliversStale | ui/socket.go:316-318 | for any two broadcast changes, say a toggle and the pipeline's next status, a run from the start in which they reach a client in the wrong order and leave it with the older state |
| Backlog.LastIsPending | ui/socket.go:306-324 | in every state, for every working connection, the snapshots it can end up with are exactly the pending ones -- of broadcasts and of its greeting -- or, with none pending, the one it has |
| Backlog.UpToDateExactly | ui/socket.go:306-324 | in every state every order of the pending writes, whatever else is written meanwhile, ends the wire with snapshot n or a later one exactly if nothing pending is older and, with nothing pending, the wire ends so already |
| Backlog.LatestDeliveredExactly | ui/socket.go:306-388 | the same for every state of every run as the client sees it, in terms of its last accepted snapshot |
| Backlog.OvertakenBroadcastIsStale | ui/socket.go:316-318 | whenever a broadcast still owes a working client a write and a newer one has been made, the client can end up with the older state |
| Delivery.EndToEnd | ui/socket.go:306-388 | for every run of the daemon, every run of the tray, every chunking and any stale callbacks in between, the last receive reporting the end or not: a connection that becomes ready emits exactly the accepted snapshots of the lines received so far, each a state since registration, in order for serial runs, and then the disconnect if it ended |
| Delivery.TwoHellosRun | tray/Sources/AvellaTrayLib/SocketClient.swift:217-222 | the run from the start that breaks the grammar: start, ready, one chunk with an accepted hello, a refused one and a snapshot; it leaves the view connected to a client that has given up |
| Delivery.EmittedFromWire | tray/Sources/AvellaTrayLib/SocketClient.swift:242-256 | what a wire's messages make a client emit are its accepted snapshots, in order, without refusal |
| Delivery.ReceivedMessages | tray/Sources/AvellaTrayLib/SocketClient.swift:236-240 | the complete lines of any first part of a connection's bytes decode to a first part of its messages |
| Notifications.ListIsNewestTen | ui/socket.go:113-121 | after any additions the list is the first ten of the reversed history |
| Notifications.CountIsExact | tray/Sources/AvellaTrayLib/NotificationManager.swift:108-117 | the count is the number of added entries still listed, exactly if none of these looks like the entry that headed the previous list |
| Notifications.SeenByNameTimeAndRule | tray/Sources/AvellaTrayLib/NotificationManager.swift:108-117 | the previous head counts as seen exactly by name, time and rule: with another dry-run flag or action text it is not new |
| Notifications.PostedIsAnnounced | tray/Sources/AvellaTrayLib/NotificationManager.swift:61-81 | over any in-order run of updates the files posted are, update by update, those added since the previous one and still listed, newest first |
| Notifications.NothingPostedTwice | tray/Sources/AvellaTrayLib/NotificationManager.swift:61-81 | over any such run no file is posted twice |
| Notifications.MissedOnlyIfPushedOff | tray/Sources/AvellaTrayLib/NotificationManager.swift:61-81 | an entry added between any two successive updates of a run is ever posted exactly if the second one posts and fewer than ten newer entries came before it |
| Notifications.NotificationManager.HandleStateUpdate | tray/Sources/AvellaTrayLib/NotificationManager.swift:61-81 | the first update posts nothing, a disabled one posts nothing but still moves the reference list |
| NotifyDelivery.LoggedLists | ui/socket.go:113-121 | in every run of the daemon each state lists the ten newest of the files added up to it |
| NotifyDelivery.NotificationsAreExact | tray/Sources/AvellaTrayLib/NotificationManager.swift:61-117 | along one connection of a serial run: a new manager that handles the accepted snapshots in turn posts exactly the files processed since its previous update and still listed, none twice |
| Overtaking.CountInAnyOrder | tray/Sources/AvellaTrayLib/NotificationManager.swift:108-117 | for distinct entries and lists in any order: the count is the number added since the previous list and still listed, exactly if the list was not overtaken or is empty; an overtaken list counts as new entirely |
| Overtaking.PostedExactly | tray/Sources/AvellaTrayLib/NotificationManager.swift:61-81 | for updates in any order: what is posted is what each update added to the previous one, exactly if no posting update with a non-empty list was overtaken |
| Overtaking.PostedEntryExactly | tray/Sources/AvellaTrayLib/NotificationManager.swift:61-81 | for updates in any order: an entry is ever posted exactly if some posting update's range of the history holds it |
| Overtaking.PostedOnceExactly | tray/Sources/AvellaTrayLib/NotificationManager.swift:61-81 | for updates in any order: nothing is posted twice exactly if the ranges of the history posted do not meet |
| Overtaking.NotificationsInAnyRun | tray/Sources/AvellaTrayLib/NotificationManager.swift:61-117 | both equivalences along a connection of any run of the daemon, overlapping broadcasts or not |
| Overtaking.OvertakenIsPostedAgain | tray/Sources/AvellaTrayLib/NotificationManager.swift:74-81 | the lists [], [f], [g, f], [f] make f posted twice |
| Overtaking.ToggleOvertakenRepeats | ui/socket.go:316-318 | a run of the daemon from the start, a toggle's broadcast overtaken by the next file's, that leads to these lists and posts |
| Sessions.SnapshotsOfSessions | tray/Sources/AvellaTrayLib/AppDelegate.swift:51-72 | over any number of connections of any run the snapshots among the tray's events are states of the daemon's log, at non-decreasing positions if the run is serial |
| Sessions.NotificationsAcrossConnections | tray/Sources/AvellaTrayLib/NotificationManager.swift:61-117 | fed with the tray's own events over any number of connections of any run, the manager posts exactly the files processed since its previous update and still listed exactly if no posting update was overtaken, and none twice exactly if the ranges posted do not meet |
| Sessions.NotificationsOfSerialSessions | tray/Sources/AvellaTrayLib/NotificationManager.swift:61-117 | in serial runs nothing is overtaken across any number of connections: all is announced, none twice |
| Sessions.TwoSessionsAreHistory | tray/Sources/AvellaTrayLib/SocketClient.swift:224-228 | a concrete history with a reconnect, the first connection's end reported along with its data |
| Sessions.JoinsLater | ui/socket.go:222-224 | a connection accepted in the course of a run is registered no earlier than the run begins |
| Stabilizer.WaitStable | stabilizer/stabilizer.go:28-68 | ends at the first poll that is missing, failing, cancelled or the last of max(checks,1)+1 equal sizes, and reports which; it goes on exactly as long as there is none |
| Stabilizer.EndsOnceSettled | stabilizer/stabilizer.go:36-67 | on every sequence that is eventually constant, missing, failing or cancelled the wait ends within the required number of polls |
| Stabilizer.SuccessNeedsEnoughPolls | stabilizer/stabilizer.go:52-60 | success takes more polls than checks, all of them sizes, the last ones equal, and comes no poll later than it could |
| Watcher.OneStabiliserPerPath | watcher/watcher.go:89-102 | under every interleaving a path has at most one goroutine that has not removed it from the pending map, so at most one waiting or sending, and the map names exactly the paths that have one |
| Watcher.AdmitsExactly | watcher/watcher.go:73-97 | in every run, while the loop runs: an event starts one goroutine for its path exactly if it is a Create that is neither skipped nor ignored and no goroutine of that path is still on the pending map; otherwise it starts nothing |
| Watcher.WaitThenSend | watcher/watcher.go:104-113 | a wait that succeeds is followed by the emission of its path with what it saw, one that fails is not |
| Watcher.CancelLetsGo | watcher/watcher.go:111-114 | cancellation is never forgotten, and lets a goroutine that has still to send drop its path |
| Watcher.ChannelCanClose | watcher/watcher.go:55-66 | from every state, leaving the loop and letting the goroutines end closes the channel |
| Watcher.EmissionsAreAdmitted | watcher/watcher.go:89-115 | per path: emissions, failed waits, abandoned sends and goroutines at work add up to the admitted Create events; nothing is abandoned unless cancelled |
| Watcher.EmissionsAreVetted | watcher/watcher.go:73-112 | every path sent had a Create event in the run that was neither skipped nor ignored, and then a successful wait |
| Watcher.ClosesLast | watcher/watcher.go:55-61 | the channel closes only when no goroutine is left, and nothing is sent on it afterwards |
| Tracker.ReplayIsLatestMarks | sweep.go:62-95 | the map holds, path by path, the latest mark not overridden by a later mark, prune or reset |
| Tracker.SkipIsJustified | sweep.go:41-60 | a file is skipped exactly if the latest mark of its path has its fingerprint and was real, or the run is dry |
| Tracker.ProcessTracker.ShouldProcess | sweep.go:41-60 | the answer is the one the specification gives for the current map |
| Tracker.ProcessTracker.MarkProcessed | sweep.go:62-70 | the map changes by this mark and nothing else |
| Tracker.ProcessTracker.Prune | sweep.go:73-85 | exactly the entries whose files are missing go |
| Tracker.ProcessTracker.Reset | sweep.go:87-95 | nothing is remembered |
| Pipeline.AtMostOncePerVersion | main.go:224-256 | in every run two real records of one path and fingerprint are separated by a record of another fingerprint, a prune of the path or a reset |
| Pipeline.NeverExecutedAgain | main.go:224-256 | of executions: once a real run of a version is over and marked, no continuation processes or executes anything for its path until a reset, a prune of the path or another version |
| Pipeline.OneFileHandled | main.go:234-251 | a file handled without anything in between is processed exactly if due in the runtime's mode, executes exactly if the engine is wet, and is recorded exactly if it matched and succeeded |
| Pipeline.RealRecordsStand | sweep.go:62-70 | in every run a standing real record is never followed by any record of the same fingerprint |
| Pipeline.SkipsAreEarned | main.go:240-243 | in every run a file is skipped only if the same fingerprint matched and succeeded before, for real or as dry as now |
| Pipeline.FailuresStayDue | main.go:245-251 | in every run a file whose processing failed or matched nothing leaves no record and stays due |
| Pipeline.PruneForgets | sweep.go:73-85 | a prune between files forgets exactly the paths that are gone |
| Pipeline.NothingRunsDry | main.go:56-73 | in every run no action executes between a SetDryRun(true) and the next SetDryRun(false) or swap to a wet engine, and a call of Process keeps its mode |
| Pipeline.DisagreementExactly | main.go:405-418 | in every run runtime and engine disagree exactly if no mode was set since the last swap and the mode last set differs from the one last set when the swapped engine was built |
| Pipeline.ShownModeExactly | ui/socket.go:258-272 | in every state: however the callbacks under way arrive and whatever else happens, the UI ends up showing the runtime's mode exactly if each of them carries the flag shown now, or there are none and the two agree |
| Pipeline.TogglesAreCounted | ui/socket.go:258-272 | in every run the flag shown is the initial one flipped once per toggle carried to the runtime or under way |
| Pipeline.OvertakingToggleMisleads | ui/socket.go:258-272 | two toggles whose callbacks overtake each other leave the UI showing wet and the daemon dry |
| Pipeline.FlagsAgree | main.go:56-88 | without overlap of toggles and reloads the three copies of the flag agree whenever no toggle is under way |
| Pipeline.ToggleDuringReloadIsLost | main.go:405-418 | a toggle between an engine's construction and its swap leaves everything saying dry while the engine executes |
| Pipeline.PoolsAreConserved | main.go:392-418 | in every run each pool built is owned by the runtime, held by the reload that built it, or closed, in one place only; the engine's pool is open until shutdown |
| Pipeline.OneReload | main.go:392-419 | a reload without anything in between puts the new engine in force in the runtime's mode with its own pool and makes every file due again; a failed one changes nothing and closes the pool it built |
| Pipeline.ShutdownClosesAll | main.go:90-105 | shutting down, in any run, closes every pool that is not in the hands of a reload |
| Runtime.RuntimeState.SetDryRun | main.go:68-73 | runtime and engine agree afterwards, from any state |
| Runtime.RuntimeState.SwapEngine | main.go:81-88 | the new engine is in force and its pool joins the owned ones |
| Runtime.RuntimeState.Close | main.go:90-105 | every owned pool is closed completely and forgotten, whatever errors occur; the error reported is that of the first pool that has one |
| Runtime.RuntimeState.HandlePath | main.go:224-256 | a recent entry and a record arise exactly if the file is not skipped, ignored or done and the chosen rule succeeds or is run dry; the entry names the rule and its first action as described before anything ran; a dry run leaves the disk alone |
| Runtime.RuntimeState.ReloadConfig | main.go:392-420 | succeeds exactly if the configuration loads and compiles; a failure changes nothing and leaves no open pool, a success resets the tracker and keeps the mode |
| ConfigWatch.ReloadsWait | main.go:334-390 | in every run a reload comes no earlier than 300 ms after the last relevant event handled |
| ConfigWatch.ReloadsOnlyOnce | main.go:385-387 | in every run a reload can still happen exactly as long as none has |
| ConfigWatch.Debouncer.HandleEvent | main.go:344-357 | creates or rewinds the timer and drains a value that was already there |
| ConfigWatch.Debouncer.HandleTick | main.go:385-387 | reloads and stops listening |
| Config.ValidateMatchRule | config/config.go:211-234 | accepts exactly compilable patterns, known file types and parsable ages |
| Config.ValidateAction | config/config.go:236-254 | accepts exactly entries with some action, known SSH host and known ZIP mode |
| Config.ValidateRule | config/config.go:184-209 | accepts exactly named rules whose criteria and three action lists are valid |
| Config.Validate | config/config.go:152-182 | accepts exactly valid configurations and otherwise blames the first bad directory or rule, or some bad ignore entry |
| Config.ValidMeansFaultless | config/config.go:152-254 | a configuration is valid exactly if none of the listed faults -- of directories, ignore entries, rule names, criteria and actions of all three lists -- is anywhere in it |
| Engine.ShownKindIsBuiltKind | actions/action.go:24-42 | the kind shown is the kind built, exactly unless scp and exec are set without move |
| Engine.BuiltAsDeclared | actions/action.go:24-42 | an entry builds an action exactly if every field of it is the configured one -- destination, command, host, delete_source, full exactly for "full", message -- the first field set counting, and there is a pool for an upload |
| Engine.CompileActions | rules/engine.go:88-93 | fails exactly if some entry cannot be built, else keeps length and order |
| Engine.CompileRules | rules/engine.go:72-113 | fails exactly if some rule cannot be compiled, else keeps rules, lists, ages and patterns in order |
| Engine.CompileIgnores | rules/engine.go:115-130 | every map entry ends up in the list exactly once, in whatever order the map is walked |
| Engine.NewEngine | rules/engine.go:71-133 | succeeds exactly if everything compiles, and is then the compiled form of the configuration |
| Engine.CompiledAsDeclared | rules/engine.go:72-113 | each compiled rule has its configured name and criteria, and each of its three lists the configured actions in order |
| Engine.ValidatedConfigsCompile | main.go:200-205 | a validated configuration always compiles, with the pool that newSSH gives it |
| Engine.CompiledMatchingIsDeclared | rules/match.go:17-55 | compiled matching is the conjunction of the configured criteria with the age from min_age, else min_age_seconds |
| Engine.CompiledAge | rules/engine.go:57-67 | the compiled age is the parsed min_age, and without one min_age_seconds |
| Engine.AgeFitsExactly | rules/engine.go:57-67 | that holds for all file ages exactly if the declared age fits 64 bits, that is up to 9223372036 seconds |
| Engine.ShouldIgnore | rules/engine.go:136-148 | true exactly if the file can be examined and some ignore entry matches |
| Engine.IgnoringIsOrderFree | rules/engine.go:115-148 | whether a file is ignored depends on the configured map only |
| Engine.IgnoringIsDeclared | rules/engine.go:136-148 | with ages that fit, a file is ignored exactly if some configured entry's criteria hold |
| Disk.MoveKeepsBytesUnlessAliased | actions/move.go:34-97 | a move keeps the bytes at source or destination whatever fails, exactly unless the destination is another name of the source |
| Disk.MoveSucceedsExactly | actions/move.go:40-66 | a move succeeds exactly if the directory is there and the rename works, or fails with a link error and the whole copy and removal work; then the bytes are at the destination and the source is gone; all other files stay |
| Disk.UploadSucceedsExactly | actions/scp.go:43-89 | an upload succeeds exactly if every step works; a complete copy leaves the source's bytes at the remote file, and the source goes exactly if deleting was asked for and worked |
| Disk.Volume.CopyFile | actions/move.go:69-97 | opens the source before truncating the destination; success means complete copy and clean closes |
| Disk.Volume.Move | actions/move.go:34-67 | rename, or on a link error copy and remove; every failure pattern has the specified effect |
| Disk.Volume.UploadFile | actions/scp.go:94-133 | success means that the remote file has the source's bytes and nothing else changed |
| Disk.Volume.Send | actions/scp.go:37-89 | the source is deleted only after a complete upload; every failure pattern has the specified effect |
| Process.TraceOfRule | rules/engine.go:201-216 | what runs is all actions then all on_success hooks, or the shortest failing prefix then all on_fail hooks, whatever the hooks do |
| Process.TraceVerdicts | rules/engine.go:201-216 | in the trace of every rule an entry is ok exactly if its action works on the disk its predecessors left: a command if it exits successfully, a validation if the file is there, opens and checks, a notification if its message expands, moves and uploads if their steps work |
| Process.LeftOnDisk | actions/validate_zip.go:29-69 | a validation or notification leaves the disk alone, a command leaves what it leaves |
| Process.FailingCommandFails | actions/exec.go:18-32 | a command that fails makes the rule fail at it or before it: no later action runs, the failure hooks do |
| Process.ChosenIsUnique | rules/engine.go:167-182 | at most one index is the first matching rule with actions |
| Process.ChosenIsFirstDeclared | rules/engine.go:167-182 | for validated configurations the rule run is the first configured one that has actions and whose criteria hold |
| Process.RuleEngine.Execute | actions/action.go:12-14 | each action has its specified effect on the disk and its specified verdict |
| Process.RuleEngine.RunHooks | rules/engine.go:245-251 | all hooks run in order, no failure stops them |
| Process.RuleEngine.RunChosen | rules/engine.go:201-216 | disk and trace are those of the specification; the error is set exactly if an action failed |
| Process.RuleEngine.Process | rules/engine.go:159-221 | missing file and ended context give their errors without effect; otherwise the first matching rule with actions is handled: its actions are described as of before, nothing happens dry, its trace runs wet |
| Process.RuleEngine.DescribeActions | rules/engine.go:223-233 | one description per action, in order, with the template expanded if that works |
| Process.DescribedIsDone | actions/move.go:22-38 | when expanded templates hold no further placeholders, an action does, on any disk with the source in place, what its description says |
| Process.DescriptionIsExpanded | actions/move.go:22-29 | a description shows the expanded text where the file is there and expansion works, the configured text otherwise, and all other fields as they are |
| Custody.NoBytesLost | actions/move.go:34-97 | however renames, copies, closes and removes fail, a rule without exec that is not exposed leaves the bytes at the source, a move destination or an upload target |
| Custody.BytesSurviveExactly | rules/engine.go:201-216 | the bytes survive every pattern of failures exactly if the rule is not exposed, that is if no move onto another name of the source can be reached with the source in place and every uploaded copy overwritten |
| Custody.UnaliasedIsSafe | actions/move.go:44-46 | a rule none of whose moves aims at another name of the source is not exposed |
| Custody.NothingLostUnasked | actions/scp.go:79-82 | a rule configured without moves, commands and deleting uploads leaves every local file in place with its bytes, whatever fails |
| Custody.LostByFailure | actions/move.go:69-97 | the concrete failures by which a rule exposed at a failing action loses the bytes |
| Custody.LostBySuccess | rules/engine.go:215-216 | the concrete failures by which a rule exposed in its success hooks loses the bytes |
| Custody.OneAction | actions/scp.go:67-132 | from an intact source each action passes with its copies kept, moves the bytes, fails harmlessly, or is an aliased move |
| SshPool.HandedOutIsOpen | ssh/pool.go:103-125 | what getConn hands out is open and cached under the name asked for; a stale connection has been closed and is not handed out |
| SshPool.GotExactly | ssh/pool.go:66-125 | in every state: a live cached client is handed out again and nothing else happens; otherwise a client never opened before, exactly if the host is configured, authentication works and the dial does; a stale one is closed, an agent socket opened exactly if there is no key file and the agent is reached |
| SshPool.ResourcesAreConserved | ssh/pool.go:66-163 | in every run each client is cached under one name or closed once, each agent socket kept or closed once; after Close everything is closed |
| SshPool.ClosingKeepsInv | ssh/pool.go:145-163 | closing closes each open resource once and empties the caches, in whatever order the map is walked |
| SshPool.Pool.AuthMethod | ssh/pool.go:70-100 | opens and keeps an agent socket only without a key file |
| SshPool.Pool.Dial | ssh/pool.go:36-64 | unknown hosts, failed authentication and failed dials give nothing; the agent socket stays even if the dial fails |
| SshPool.Pool.GetConn | ssh/pool.go:103-125 | a live cached connection is returned, a stale one closed and replaced |
| SshPool.Pool.Close | ssh/pool.go:145-163 | closes everything whatever errors occur; reports a failing client, else the first failing agent socket, else nothing |

## Left out

- TrayRuns.GenerationSafety: a receive call completes once and a connection reports ready once, as Network.framework promises; all other callbacks may arrive late, repeatedly and in any order.
- TrayStream.ChunkingDoesNotMatter: about receives of an open connection; a stop or the end of the connection in between is covered by TrayEvents.GrammarOfRuns and TrayRuns.OneDisconnect.
- Sessions.NotificationsAcrossConnections: between two connections no bytes of a third one arrive.
- Notifications.PostedIsAnnounced: for updates in order; Overtaking.PostedExactly is the exact statement for any order.
- Notifications.NothingPostedTwice: for updates in order; Overtaking.PostedOnceExactly is the exact statement for any order.
- Notifications.MissedOnlyIfPushedOff: for updates in order; Overtaking.PostedEntryExactly is the exact statement for any order.
- DaemonRuns.OverlapDeliversStale: any two changes may overlap in the model; in the daemon the pipeline's own broadcasts come one after the other, so one of the two is a toggle.
- DaemonRuns.SerialDelivery: one direction, as a statement about whole runs; Backlog.LatestDeliveredExactly is the exact one, state by state.
- DaemonRuns.AcceptedStatesAreReal: writes are whole lines, and a connection whose write failed carries nothing afterwards.
- Delivery.EndToEnd: JSON is a codec that returns the messages it encoded and puts no newline into them; a snapshot with an absent rule list, which the daemon encodes as null, is outside that assumption.
- Pipeline.FlagsAgree: one direction, as a statement about whole runs; Pipeline.DisagreementExactly and Pipeline.ShownModeExactly are the exact ones.
- Pipeline.PoolsAreConserved: a pool swapped in after shutdown is owned by the runtime but never closed, as in the code.
- Custody.BytesSurviveExactly: exec is excluded, a rule with an external command can do anything; upload targets with different names are different files, and no upload target is the source; a template expands to the same text throughout one call.
- Disk.MoveKeepsBytesUnlessAliased: names and bytes only, no permissions, times or directories.
- Watcher.EmissionsAreAdmitted: no liveness; a Create event between a send and the removal from the pending map starts nothing, as in the code.
- ConfigWatch.ReloadsWait: time is counted in whole milliseconds, and the timer's value may be taken any time after it fired.
- SshPool.ResourcesAreConserved: closing always releases, also when it reports an error; SFTP sessions are answers of one call.
- Process.RuleEngine.DescribeActions: descriptions are values, not formatted text.
- Runtime.RuntimeState.ReloadConfig: without concurrent toggles; their interleaving is part of Pipeline.
- Goroutines, callbacks and lock sections interleave in TrayRuns, DaemonRuns, Watcher and Pipeline as step functions on values; the classes beside them show each section alone, so aliasing between goroutines is not modelled.
- JSON, regular expressions, globs, durations, templates, file type tables and ZIP checking are arbitrary functions or answers.
- The directory scan and the daemon's select loop only choose which path is handled next; every order is a run of Pipeline.
- SocketClient.send, open_config, quit, the removal of a stale socket, cleanup on shutdown, login item, views, logging and command line.
