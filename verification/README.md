# A verified model of the desktop client's core logic

The client is a Rust program around an embedded browser, a media player and native windows. This project models
its self-contained algorithms and protocols in Dafny, in the form the program gives them (classes whose methods
update fields, loops over buffers, state machines over the steps of threads), and proves what they promise over
all inputs, histories and interleavings.

| file | component | what is modelled |
|---|---|---|
| `Redact.dfy`, `RedactReach.dfy`, `RedactUtf8.dfy` | log redaction | the six token rules overwriting one buffer in turn, and the guard in front of them |
| `SaveWorker.dfy` | settings save worker | posters, worker and shutdown call as interleaved steps over two locks and a condition variable |
| `Settings.dfy`, `DeviceNames.dfy` | settings store | saving to and loading from the JSON object, device name normalisation |
| `SinkRouting.dfy`, `Browsers.dfy` | cursor routing, focus stack | the router over its history, and the layer registry that drives it |
| `Civil.dfy` | build date | civil-from-days against the Gregorian calendar (section 5.7 and Appendix C of RFC 3339) |
| `Painter.dfy` | software painter | dirty-rectangle upload into a texture kept between frames |
| `LogFile.dfy`, `LineCapture.dfy` | logging | rotation of the log file, and line splitting of captured standard error |
| `PaintScheduler.dfy` | paint scheduler | the boosted invalidate loop and the dropped paints behind a resize |
| `Scroll.dfy` | scroll input | the coalescing accumulator and its drain |
| `Manager.dfy` | control-plane thread | message queue, wake event, lifecycle |
| `Renames.dfy` | device profile | rename expansion and the transcode codec lists |
| `Transition.dfy`, `SurfaceStacks.dfy` | compositor | the resize gate as Windows and X11 drive it, and the surface registry |
| `Bytes.dfy`, `Options.dfy`, `Sequences.dfy` | | the byte type, optional values, sequences without an element or without repetitions |

Modelling choices:

- `f32` and `f64` are exact reals; rounding is half away from zero, conversion to `i32` saturates.
- Integers are unbounded. The `i64`-to-`i32` cast of the settings wraps around explicitly; `ClipRect` asks that the
  corners of a rectangle be 32-bit numbers, as the source's additions do.
- A section under a lock, and a task on the browser's UI thread, is one atomic step.
- Generational handles are numbers that are never handed out twice.
- An operation that the program performs in place is a class or array method; its `ensures` equates the new state
  with a function of the old one, and the theorems are about that function over whole histories.

Points where the obvious claim, or what the source says of itself, fails, each with an input and the exact
condition:

- The redaction guard looks at the first occurrence of each needle only: `Redact.GateMissesLaterToken` gives a buffer it
  lets through, `Redact.GuardMissesIff` says which buffers those are.
- A redaction rule can overwrite the needle of another. Every URL-style token is still overwritten
  (`RedactReach.CensorReachesUrlTokens`); a JSON token can be missed (`RedactReach.JsonTokenCanBeMissed`), and
  `RedactReach.JsonTokenOverwrittenIff` says exactly when.
- Device name normalisation truncates after trimming: `DeviceNames.CutNameIsNotStable`, `DeviceNames.IdempotentIff`.
- A flush of the scroll accumulator schedules no other, so a wheel event by one line emits 18 of its 40 pixels and the
  rest waits for the next event (`Scroll.OneLineIsNotEmitted`). `src/input/src/scroll.rs:99-101` speaks of a remainder
  below one unit. `Scroll.ScheduledRunIsEmptyIff` says what a flush must find for nothing to stay; the results about
  flushes in a row are about flushes that follow each other, which `Scroll.NoMoreFlushesThanWheels` rules out between
  wheel events.
- On X11 each resize begins the transition anew and the gate is there to drop frames of stale size
  (`src/x11/src/surface.rs:447-454`). Only the size before the last resize is dropped: `Transition.LateFrameIsPresented`,
  `Transition.StaleFramesDroppedIff`. On Windows this cannot happen (`Transition.WindowsRejectsFirstSize`).
- The gate ignores an expected size equal to the captured one, but a transition begun behind a resize on X11
  (`src/x11/src/make_platform.rs:193-197`) captures the size that the resize expects: `Transition.ExpectedCanBeCaptured`,
  `Transition.ExpectedIsCapturedIff`.
- A restack that pushes a surface no longer live can leave a dead main surface: `SurfaceStacks.DeadBottomBecomesMain`,
  `SurfaceStacks.RestackKeepsMainLiveIff`, `SurfaceStacks.RestackKeepsInvIff`.
- The settings writer is created by the first save, and a shutdown call ahead of it stops nothing; saves that follow are
  written, although `src/config/src/lib.rs:416-417` says that they are ignored: `SaveWorker.EarlyShutdownStopsNothing`,
  `SaveWorker.CloseStopsIff`, `SaveWorker.SaveIsIgnoredIff`.
- The top of the focus stack can be without focus: `Browsers.ReactivationDoesNotRefocus`, `Browsers.TopFocusedIff`.
- A frame dropped while the surface is hidden is not made up for: a later visible frame that tells only its own changes
  leaves stale pixels (`Painter.HiddenChangeIsMissed`, `Painter.ShowsLatestIff`).
- A browser that arrives while the process shuts down keeps the frame rate it was asked for:
  `PaintScheduler.LateBrowserKeepsItsRate`, `PaintScheduler.RateIsConfiguredIff`.

## Model

| member | source | states |
|---|---|---|
| Redact.FindSubslice | src/logging/src/redact.rs:40-48 | finds the first occurrence at or behind `from`, or there is none |
| Redact.TokenEnd | src/logging/src/redact.rs:50-56 | the first terminator at or behind `from`, or the end of the buffer |
| Redact.Elide | src/logging/src/redact.rs:58-72 | the in-place loop overwrites exactly the bytes of tokens behind the occurrences it finds, and nothing else |
| Redact.Overwrite | src/logging/src/redact.rs:63-65 | the inner loop overwrites one span with `x` |
| Redact.ElideRedacts | src/logging/src/redact.rs:58-72 | afterwards every occurrence of the rule's needle in the result is followed by `x` only, up to its terminator |
| Redact.ElideKeepsRedacted | src/logging/src/redact.rs:13-38 | a later rule whose terminators are among those of an earlier one never breaks what the earlier rule established |
| Redact.RuleTable | src/logging/src/redact.rs:10-38 | of the shipped table: needles are free of `x` and have no border of their first byte, and each later rule stops nowhere the earlier ones would not |
| Redact.Censor | src/logging/src/redact.rs:86-90 | the in-place sweep computes the six rules one after another |
| Redact.CensorRedactsAll | src/logging/src/redact.rs:86-90 | for every buffer, in the result of the sweep no occurrence of any of the six needles has an exposed token |
| Redact.CensorTouchesTokensOnly | src/logging/src/redact.rs:58-90 | length is kept and a byte changes only to `x` and only inside a token, up to its first terminator, behind an occurrence of a needle in the original buffer |
| Redact.TerminatorsSurvive | src/logging/src/redact.rs:58-90 | the rules before a rule never move the end of that rule's tokens |
| Redact.CensorIdempotent | src/logging/src/redact.rs:86-90 | sweeping twice is sweeping once |
| Redact.FixedIffAllRedacted | src/logging/src/redact.rs:86-90 | the buffers left alone are exactly those with nothing exposed |
| Redact.ContainsSecret | src/logging/src/redact.rs:74-84 | answers whether the first occurrence of some needle is followed by a non-empty token |
| Redact.GateOpensIff | src/logging/src/redact.rs:74-84 | the answer is yes exactly if, for some needle, its first occurrence is followed by a token that is not empty |
| Redact.GuardDrop | src/logging/src/lib.rs:774-781 | the writer's guard: sweep if the answer is yes, else pass the bytes on |
| Redact.GuardedIsCensoredIff | src/logging/src/lib.rs:774-781 | guard and unconditional sweep write the same exactly if the guard opens or nothing is exposed |
| Redact.GuardMissesIff | src/logging/src/redact.rs:74-84 | the guard lets through what the sweep would overwrite exactly if the first occurrence of every needle has an empty token and a later one has a byte other than `x` in its token |
| Redact.GateMissesLaterToken | src/logging/src/redact.rs:74-84 | there is a buffer with an exposed token that the guard lets through |
| RedactReach.CensorReachesUrlTokens | src/logging/src/redact.rs:13-34 | the token behind every occurrence, in the original buffer, of each of the five URL-style needles is overwritten from that rule on |
| RedactReach.LiteralUrlTokens | src/logging/src/redact.rs:13-34 | whatever stands behind one of the five URL-style literals, up to the first of the characters that end such a token, is x afterwards |
| RedactReach.LiteralJsonTokens | src/logging/src/redact.rs:35-38 | wherever the JSON literal still stands afterwards, nothing but x comes before the next quote |
| RedactReach.FoundIffUnshadowed | src/logging/src/redact.rs:35-38 | an occurrence of the JSON needle is still found by its rule exactly if no token of another occurrence swallows it |
| RedactReach.JsonTokenOverwrittenIff | src/logging/src/redact.rs:35-38 | its token is overwritten exactly if that is so, or the token consisted of `x` to begin with |
| RedactReach.JsonTokenCanBeMissed | src/logging/src/redact.rs:35-38 | there is a buffer with a JSON token the sweep does not overwrite |
| RedactUtf8.OverwritesKeepUtf8 | src/logging/src/redact.rs:63-65 | overwriting with ASCII without breaking a run of non-ASCII bytes keeps UTF-8 (section 4 of RFC 3629) valid |
| RedactUtf8.ElideOverwritesWholeRuns | src/logging/src/redact.rs:58-72 | tokens begin behind an ASCII byte and end at one, so no such run is broken |
| RedactUtf8.CensorKeepsUtf8 | src/logging/src/redact.rs:86-90 | valid UTF-8 stays valid after any number of the rules |
| SaveWorker.Pending.Post | src/config/src/lib.rs:429-442 | accepts the snapshot unless stopped, replacing one not yet written; asks for the thread on the first accept |
| SaveWorker.Pending.Poll | src/config/src/lib.rs:350-359 | one look at the wait condition: take the snapshot, wait, or leave when stopped with nothing pending |
| SaveWorker.Pending.Stop | src/config/src/lib.rs:455-461 | only the first shutdown call goes on |
| SaveWorker.RunKeepsInv | src/config/src/lib.rs:348-469 | in every interleaving, shutdown calls ahead of the first save included: locks are held by one thread, the worker exists once, order, wake-ups and closing are as stated by the invariant |
| SaveWorker.AcceptedIsRequested | src/config/src/lib.rs:418-448 | in every run what the writer accepted is, in order, the snapshots that the callers passed in the saves not ignored: a function of the steps alone |
| SaveWorker.RunWritesInOrder | src/config/src/lib.rs:314-333 | the snapshots written are an in-order subsequence of those the callers passed in saves that were not ignored, and a sleeping worker with work has a wakeup underway |
| SaveWorker.ShutdownDrains | src/config/src/lib.rs:449-469 | when a shutdown call that stopped the writer returns, nothing is pending and the last write is the last snapshot a caller passed in a save not ignored |
| SaveWorker.ClosedIsFinal | src/config/src/lib.rs:449-469 | in all that follows the return of such a call nothing is accepted or written |
| SaveWorker.CloseStopsIff | src/config/src/lib.rs:451-461 | a shutdown call stops the writer exactly if a save began before it; if none did, nothing was accepted and the call changes nothing |
| SaveWorker.SaveIsIgnoredIff | src/config/src/lib.rs:416-417 | in every run a save that reaches the writer is ignored exactly if a shutdown call came behind the begin of some save |
| SaveWorker.EarlyShutdownStopsNothing | src/config/src/lib.rs:449-454 | a run whose shutdown call comes first: the save behind it is accepted |
| SaveWorker.SomeStepEnabled | src/config/src/lib.rs:348-469 | no deadlock: unless nobody is in the middle of anything, some thread can go on |
| SaveWorker.QuietIsDrained | src/config/src/lib.rs:348-362 | when all is quiet the newest accepted snapshot is on disk |
| SaveWorker.RunSettles | src/config/src/lib.rs:348-469 | without new calls every schedule comes to rest within a bound on its steps |
| SaveWorker.StuckRunIsDone | src/config/src/lib.rs:348-469 | where it rests, all calls have returned and the newest snapshot passed in a save not ignored is on disk |
| Settings.WrapI32 | src/config/src/lib.rs:116 | the cast `as i32` differs from its argument by a multiple of 2^32 |
| Settings.DecorationsRoundTrip | src/platform_abi/src/lib.rs:248-266 | parsing gives a mode back exactly for that mode's own literal |
| Settings.Store.OverlayJson | src/config/src/lib.rs:89-167 | every key present and of the right kind overwrites its field, every other field stays; a document that is no object changes nothing |
| Settings.Store.ToJson | src/config/src/lib.rs:169-243 | writes exactly the keys whose values are worth saving |
| Settings.OverlaidIff | src/config/src/lib.rs:89-167 | for every object: the overlay gives the one record in which each key has set its own field to what it holds, numbers up to multiples of 2^32, a name up to 64 bytes, and keys missing or of another kind have left theirs |
| Settings.Store.SetDeviceName | src/config/src/lib.rs:527-530 | stores the normalised name and nothing else |
| Settings.SavedAt | src/config/src/lib.rs:169-243 | under each key the saved object holds that field's value or nothing, and it has no other key |
| Settings.LoadOfSave | src/config/src/lib.rs:1-7 | for all settings, loading the saved object over the defaults gives the canonical form: default decoder and half-unset pairs forgotten, an over-long name cut, all else kept |
| Settings.SaveOfCanonIff | src/config/src/lib.rs:169-243 | the canonical form saves to the same object exactly if the name fits |
| Settings.SaveLoadSave | src/config/src/lib.rs:1-7 | save, load, save repeats the first object exactly if the name fits, and a second load repeats the first |
| Settings.LoadedFilesAreStable | src/config/src/lib.rs:389-403 | whatever the file held, what is saved after loading it is stable |
| Settings.SetNameSurvives | src/config/src/lib.rs:523-530 | a name set through normalisation survives the restart |
| Settings.SavedAlikeIff | src/config/src/lib.rs:169-243 | two settings whose names fit save alike exactly if their canonical forms are equal: a save forgets nothing else |
| Settings.SavedIsMinimal | src/config/src/lib.rs:169-243 | no key but the two always saved stands in the file unless leaving it out would load something else |
| Settings.AlwaysSaved | src/config/src/lib.rs:171-193 | the server's address and the maximized flag are always saved |
| Settings.SavedNumbersFit | src/config/src/lib.rs:172-192 | every whole number saved fits 32 bits |
| DeviceNames.NormalizeDeviceName | src/config/src/lib.rs:585-612 | the loop yields the words joined by single spaces, cut to 64, or nothing if that is the platform's own name |
| DeviceNames.WordsOfSpaced | src/config/src/lib.rs:590-604 | splitting words joined by single spaces gives the words back |
| DeviceNames.WordsAtBlank | src/config/src/lib.rs:590-601 | any blank separates: the words before it and behind it are each found by themselves |
| DeviceNames.WordsHoldAll | src/config/src/lib.rs:590-601 | the words hold all non-blanks of the name, in order |
| DeviceNames.CollapsedKeepsWords | src/config/src/lib.rs:586-604 | before the cut, collapsing keeps the word sequence and every non-blank, and is idempotent |
| DeviceNames.CollapsedIsUnique | src/config/src/lib.rs:586-604 | the collapsed name is the only tidy string not ending in a space that has the words of the name |
| DeviceNames.FittingNameIsKept | src/config/src/lib.rs:605-611 | if the collapsed name fits and is not the platform's own, the result keeps every word and every non-blank |
| DeviceNames.LongNameIsCut | src/config/src/lib.rs:605-611 | if it is too long, the result is its first 64 bytes, or nothing exactly if those are the platform's own name |
| DeviceNames.EmptyIff | src/config/src/lib.rs:585-612 | the result is empty exactly if the name has no word or is, as far as it fits, the platform's own |
| DeviceNames.IdempotentIff | src/config/src/lib.rs:605-611 | normalising again changes the result exactly if the cut left a space at the end of a name other than the platform's |
| DeviceNames.CutNameIsNotStable | src/config/src/lib.rs:605-611 | a name of 63 letters, a space and a letter is changed by the second normalisation |
| DeviceNames.SettlesAfterTwo | src/config/src/lib.rs:585-612 | the second normalisation is always final |
| DeviceNames.NormalizedFits | src/config/src/lib.rs:522-526 | a normalised name fits 64 bytes, is tidy, and is never the platform's own |
| SinkRouting.Router.AddStream | src/jfn_cef/src/sink_routing.rs:71-73 | registers a stream under a new handle |
| SinkRouting.Router.AddLevel | src/jfn_cef/src/sink_routing.rs:76-78 | registers a level without a value under a new handle |
| SinkRouting.Router.Select | src/jfn_cef/src/sink_routing.rs:96-108 | selects a live producer, replaying a level's value once; ignores a stale handle |
| SinkRouting.Router.Remove | src/jfn_cef/src/sink_routing.rs:113-125 | removes the producer; if it was selected, promotes the fallback |
| SinkRouting.Router.Emit | src/jfn_cef/src/sink_routing.rs:130-142 | a level records the value; it reaches the output only from the selected producer |
| SinkRouting.RunAgrees | src/jfn_cef/src/sink_routing.rs:53-142 | after any history, which producers live, which is selected, every level's value and the whole output are functions of the history, defined without the router's state |
| SinkRouting.RunKeepsBaseline | src/jfn_cef/src/sink_routing.rs:93-108 | whenever a level with a value is selected, that value was delivered last |
| SinkRouting.StaleIsNoOp | src/jfn_cef/src/sink_routing.rs:39-42 | an operation on behalf of a removed handle changes nothing |
| SinkRouting.RemovedStaysRemoved | src/jfn_cef/src/sink_routing.rs:39-42 | a handle handed out and removed is never live again, whatever follows |
| SinkRouting.StaleOpsDoNotMatter | src/jfn_cef/src/sink_routing.rs:39-42 | leaving all such operations out of a history changes neither state nor output |
| Browsers.Browsers.Create | src/jfn_cef/src/browsers.rs:109-144 | a new layer goes on top of the layers with a level of its own, without focus; a failed allocation changes nothing |
| Browsers.Browsers.SetActive | src/jfn_cef/src/browsers.rs:185-214 | promotes the layer to the top of the focus stack, selects its level and moves the focus; nothing if it is on top |
| Browsers.Browsers.Remove | src/jfn_cef/src/browsers.rs:149-183 | drops the layer everywhere; the previous top regains level and focus, no focus while shutting down |
| Browsers.Browsers.RouteCursor | src/jfn_cef/src/browsers.rs:227-231 | hands the shape to the router under the layer's handle |
| Browsers.HistoryConsistent | src/jfn_cef/src/browsers.rs:44-57 | after any history on live layers: no layer twice, focus stack within layers, producers exactly the live layers' handles, router on the top layer's handle or none |
| Browsers.StackIsByActivation | src/jfn_cef/src/browsers.rs:46-48 | after any history the focus stack holds exactly the layers activated since their last removal, in the order of their latest activations: the order in which they regain focus |
| Browsers.LayersAreByCreation | src/jfn_cef/src/browsers.rs:109-144 | and the layers are exactly those created and not removed since, in the order of their creation |
| Browsers.RouterIsRun | src/jfn_cef/src/browsers.rs:109-231 | after any history the router is in the state that the calls the registry made on it lead to |
| Browsers.LevelHoldsLastAsked | src/jfn_cef/src/browsers.rs:227-231 | a live layer's level holds the last shape the layer asked for since it was created |
| Browsers.HistoryShowsCursor | src/jfn_cef/src/browsers.rs:227-231 | after any history on live layers, the cursor delivered last is the last one the top layer asked for, if it asked at all; and the whole output is a function of the calls made |
| Browsers.ConsistentShowsCursor | src/jfn_cef/src/browsers.rs:227-231 | in every agreeing state the router is on the top layer's level, and a value stored there was delivered last |
| Browsers.FocusKeptIff | src/jfn_cef/src/browsers.rs:185-218 | from a focused top, a call leaves the new top focused exactly if it neither activates no layer nor loses the top during shutdown |
| Browsers.FocusAfterStepIff | src/jfn_cef/src/browsers.rs:149-218 | from any consistent state: after a call the top has focus exactly if there is none, the call gave it focus, or it had focus and the call did not drop it |
| Browsers.ActivationFocusesIff | src/jfn_cef/src/browsers.rs:185-214 | an activated layer has focus exactly if it was not on top before, or had focus there |
| Browsers.TopFocusedIff | src/jfn_cef/src/browsers.rs:149-218 | after any history the top has focus exactly if there is none, or some call gave the top focus and none dropped it since |
| Browsers.ReactivationDoesNotRefocus | src/jfn_cef/src/browsers.rs:185-196 | after activating no layer, activating the layer still on top gives it no focus back |
| Civil.YearOfEraIs | src/jfn_cef/build.rs:97 | the division formula finds the year of the era whose days contain the day |
| Civil.CivilFromDaysInverse | src/jfn_cef/build.rs:93-102 | for every day count the result is a valid date, and an independent count of the days up to it gives the day count back |
| Civil.DaysFromCivilInverse | src/jfn_cef/build.rs:93-102 | every valid date is the result for its own day count |
| Civil.CountIsInjective | src/jfn_cef/build.rs:93-102 | valid dates with the same day count are equal |
| Civil.CountsFollowTheCalendar | src/jfn_cef/build.rs:92-102 | day 0 is 1970-01-01 and consecutive counts are consecutive calendar dates |
| Painter.ClipRect | src/gpu_paint/src/painter.rs:413-440 | the clipped rectangle holds exactly the pixels both in the rectangle and in the frame |
| Painter.WriteRow | src/gpu_paint/src/painter.rs:442-478 | one row of the copy, at the row and column given, all else unchanged |
| Painter.WriteRect | src/gpu_paint/src/painter.rs:442-478 | the stride copy, its slice within the frame's bytes, makes the texture equal the frame on the rectangle and leaves the rest |
| Painter.WriteDirty | src/gpu_paint/src/painter.rs:219-239 | texture equals frame on the union of the dirty rectangles, on all of it if there are none, and is unchanged elsewhere |
| Painter.GpuPainter.Resize | src/gpu_paint/src/painter.rs:180-185 | notes a non-empty size as pending |
| Painter.GpuPainter.EnsureUpload | src/gpu_paint/src/painter.rs:298-340 | keeps a texture of the right size, else makes a new one |
| Painter.GpuPainter.PushPixels | src/gpu_paint/src/painter.rs:191-240 | refuses bad sizes, drops frames while hidden, else uploads; same size and existing texture: exactly the touched pixels change |
| Painter.TextureIsLastTouch | src/gpu_paint/src/painter.rs:211-240 | over a run of frames of one size each pixel is the one of the last visible frame that touched it |
| Painter.TextureShowsLatest | src/gpu_paint/src/types.rs:66-73 | if the first frame touches everything and frames differ only inside their dirty rectangles, the texture is the latest frame |
| Painter.ShowsLatestIff | src/gpu_paint/src/painter.rs:191-240 | runs with frames dropped while hidden: the texture is the latest frame exactly if every pixel such a frame touched, and no visible one since, looks as in the last visible frame that touched it |
| Painter.HiddenChangeIsMissed | src/gpu_paint/src/painter.rs:199-201 | whole frame, hidden whole change, visible frame touching one pixel: the other pixel is stale |
| Painter.ShowsFrameIff | src/gpu_paint/src/painter.rs:219-239 | one upload shows the frame exactly if the untouched pixels already did |
| Painter.ShownRowIsBytes | src/gpu_paint/src/painter.rs:442-478 | a row of a texture that shows the frame holds the frame's bytes of that row, in their order, without the padding |
| Painter.TextureBytesAreLatest | src/gpu_paint/src/painter.rs:191-240 | so does every row after a visible run that begins whole and tells its changes, with the latest frame |
| LogFile.RotatingFile.Open | src/logging/src/lib.rs:88-102 | shifts what is found into the backups and starts an empty file |
| LogFile.RotatingFile.RotateBackups | src/logging/src/lib.rs:120-134 | the renaming loop moves every file one slot up and loses only the oldest |
| LogFile.RotatingFile.MaybeRotate | src/logging/src/lib.rs:104-117 | rotates exactly if the bytes to come do not fit |
| LogFile.RotatingFile.Write | src/logging/src/lib.rs:142-148 | rotates if need be and appends what the system takes, counting it |
| LogFile.RotationDropsOldest | src/logging/src/lib.rs:120-134 | files oldest to newest: the oldest goes if its slot was taken, an empty one comes |
| LogFile.OpenedSlots | src/logging/src/lib.rs:120-134 | slot by slot: each file is in the next slot, slot 0 holds an empty file, no other slot is filled |
| LogFile.SegmentsHoldEverything | src/logging/src/lib.rs:142-148 | all files there ever were, in order, hold what was found and everything written |
| LogFile.FilesAreTail | src/logging/src/lib.rs:104-134 | the files on disk, oldest to newest, are the last ones of all there ever were |
| LogFile.DiskIsSuffix | src/logging/src/lib.rs:87-148 | the bytes on disk are a suffix of everything, and what is lost is whole files, oldest first |
| LogFile.CounterIsLength | src/logging/src/lib.rs:84-85 | the counter is the file's length, which exceeds the limit only after a single write |
| LogFile.RunFillsPairs | src/logging/src/lib.rs:104-107 | if the system takes every write whole, files of the run that follow each other hold more than the limit together |
| LogFile.KeepsTwiceTheLimit | src/logging/src/lib.rs:78-79 | if the system takes every write whole, a file of the run is given up only while more than twice the limit is kept |
| LineCapture.Capture.Read | src/logging/src/lib.rs:301-315 | one read emits the non-empty lines completed by it and keeps what follows the last newline |
| LineCapture.NonEmptyLeavesOutEmpty | src/logging/src/lib.rs:308-314 | exactly the empty lines are left out, the others keep their order |
| LineCapture.LinesReassemble | src/logging/src/lib.rs:308-314 | lines and tail, newlines put back, are the stream |
| LineCapture.LinesUnique | src/logging/src/lib.rs:308-314 | there is no other way to split the stream into lines and a tail |
| LineCapture.ChunkingDoesNotMatter | src/logging/src/lib.rs:278-316 | for every cutting of the stream into reads the lines emitted are its non-empty lines in order, and the rest is its tail |
| PaintScheduler.ActivePaintScheduler.SetFrameRate | src/jfn_cef/src/client/resize.rs:9-15 | applies a positive rate to a live browser |
| PaintScheduler.ActivePaintScheduler.ApplySetRefresh | src/jfn_cef/src/client/resize.rs:91-96 | configures the rate; during a boost it becomes the rate to restore instead of being applied |
| PaintScheduler.ActivePaintScheduler.DuringResize | src/jfn_cef/src/paint_scheduler.rs:196-203 | a resize begins a generation and starts the loop unless one is running |
| PaintScheduler.ActivePaintScheduler.AfterCreated | src/jfn_cef/src/client/lifecycle.rs:79-101 | a browser arrives at the rate its creation asked for and counts as resized, unless the process is shutting down |
| PaintScheduler.ActivePaintScheduler.BeforeClose | src/jfn_cef/src/paint_scheduler.rs:205-207 | a closing browser stops the loop |
| PaintScheduler.ActivePaintScheduler.KickTask | src/jfn_cef/src/paint_scheduler.rs:235-244 | boosts the rate once, then ticks |
| PaintScheduler.ActivePaintScheduler.TickTask | src/jfn_cef/src/paint_scheduler.rs:246-281 | ends the loop at the limit, at a stop or without a rate, restoring the rate; else posts the next tick |
| PaintScheduler.ActivePaintScheduler.ShouldPresentPaint | src/jfn_cef/src/paint_scheduler.rs:283-320 | counts the paint, resets the counter for a new generation at most once a period, sends the stop signal when pumped |
| PaintScheduler.RunKeepsInv | src/jfn_cef/src/paint_scheduler.rs:226-320 | the loop and paint invariants hold in every run; among them, drops are at least a period apart |
| PaintScheduler.LoopLeavesNothingBehind | src/jfn_cef/src/paint_scheduler.rs:226-281 | running exactly while one task is outstanding; not running: no saved rate, and a live browser has the rate configured last, whatever rate it was created with, unless it arrived during the shutdown |
| PaintScheduler.RateIsConfiguredIff | src/jfn_cef/src/client/resize.rs:91-96 | with no loop running a live browser has the configured rate exactly if it was created with it, or a boost was on when it arrived, or a rate was configured or a loop started since |
| PaintScheduler.LateBrowserKeepsItsRate | src/jfn_cef/src/client/lifecycle.rs:90-95 | a run in which a browser that arrives during the shutdown stays at another rate than the configured one |
| PaintScheduler.LoopTasksAreCounted | src/jfn_cef/src/paint_scheduler.rs:246-249 | while the loop goes on each of its tasks is counted, whatever resizes come between |
| PaintScheduler.LoopEnds | src/jfn_cef/src/paint_scheduler.rs:246-257 | no loop survives more than a thousand tasks |
| PaintScheduler.DropIffReset | src/jfn_cef/src/paint_scheduler.rs:283-311 | a paint is dropped exactly if its call reset the counter |
| PaintScheduler.DropRate | src/jfn_cef/src/paint_scheduler.rs:288-307 | a window all of whose drops but the first saw a period of at least P holds at most its length over P, plus one; and there are never more drops than resizes |
| PaintScheduler.SignalsPerReset | src/jfn_cef/src/paint_scheduler.rs:302-318 | at most one stop signal for each reset |
| PaintScheduler.DroppedIff | src/jfn_cef/src/paint_scheduler.rs:283-311 | from the events alone: a paint is dropped exactly if a resize, or a browser's arrival outside the shutdown, came since the paint before and the paint comes at least its period after the last one dropped; and these are all the drops |
| PaintScheduler.SignalledIff | src/jfn_cef/src/paint_scheduler.rs:302-318 | from the events alone: the stop signal goes out exactly with the paint before which as many came since the last drop, that one included, as the rate was then |
| PaintScheduler.TaskPostsIff | src/jfn_cef/src/paint_scheduler.rs:246-281 | from the events alone: a task of the loop posts the next one exactly if neither a close nor a stop signal came since the last resize, a rate is configured and the loop has had fewer than a thousand tasks |
| PaintScheduler.BoostHolds | src/jfn_cef/src/paint_scheduler.rs:235-244 | from its kick on, while the loop runs, the browser has twice the rate configured at the kick, whatever is configured meanwhile |
| Scroll.ScrollAccum.Accumulate | src/input/src/scroll.rs:68-96 | adds the delta, lines as forty pixels; asks for a flush exactly if none is scheduled |
| Scroll.ScrollAccum.Flush | src/input/src/scroll.rs:104-149 | takes a whole chunk from both axes, keeps the rest, and reports the chunk unless it is zero |
| Scroll.RoundIs | src/input/src/scroll.rs:112-113 | rounding gives the nearest integer, from half-way the one farther from zero |
| Scroll.ChunkIs | src/input/src/scroll.rs:111-126 | a chunk is the nearest integer to the axis, in line mode to 45 percent of it but a pixel at least from one pixel on, within 32 bits |
| Scroll.FlushReports | src/input/src/scroll.rs:137-148 | over any run: a flush reports position, modifiers and mode of the last wheel event with the chunks of both axes, and nothing exactly if both are zero |
| Scroll.FlushConserves | src/input/src/scroll.rs:110-134 | old = emitted + kept + discarded; nothing discarded in precise mode, less than half a pixel in line mode, and then nothing is kept |
| Scroll.PreciseRest | src/input/src/scroll.rs:112-116 | precise mode keeps at most half a pixel exactly where the 32-bit conversion does not cut the chunk off |
| Scroll.LineRest | src/input/src/scroll.rs:117-134 | for every value, line mode never overshoots and takes at least one pixel while there is one |
| Scroll.LineDecay | src/input/src/scroll.rs:14-16 | line mode keeps at most 55 percent and a half exactly where the conversion does not cut the chunk off |
| Scroll.RestIsZeroIff | src/input/src/scroll.rs:111-136 | one flush empties an axis exactly if it holds whole pixels in precise mode, or less than half or from one to below one and a half in line mode |
| Scroll.FlushesSettle | src/input/src/scroll.rs:120-134 | one axis flushed k times in a row, from any value: less than a pixel is left after floor of the size many flushes, and then it stays |
| Scroll.FlushesDecay | src/input/src/scroll.rs:14-16 | one axis flushed k times in a row decays geometrically with ratio 0.55 up to a constant |
| Scroll.WholePixelsAreEmitted | src/input/src/scroll.rs:117-134 | one axis flushed in a row from any whole number of pixels: nothing is left and every pixel was emitted, in at most as many flushes |
| Scroll.FlushesInARow | src/input/src/scroll.rs:104-149 | a run in line mode continued by k flushes flushes both axes k times and emits what those flushes do |
| Scroll.FlushesInARowSettle | src/input/src/scroll.rs:117-134 | continued by flushes alone, every line-mode run comes to keep less than a pixel of each axis |
| Scroll.FlushesInARowDecay | src/input/src/scroll.rs:14-16 | and decays geometrically on the way |
| Scroll.FlushesInARowEmitAll | src/input/src/scroll.rs:117-134 | and from whole pixels emits all of them |
| Scroll.NoMoreFlushesThanWheels | src/macos/src/input.rs:445-461 | if only wheel events schedule flushes, there are no more flushes than wheel events and no two in a row |
| Scroll.ScheduledRunIsEmptyIff | src/input/src/scroll.rs:97-103 | with no flush outstanding in such a run nothing is left exactly if the last flush found both axes in a state that one flush empties |
| Scroll.WholeLinesLinger | src/input/src/scroll.rs:84-87 | a flush that finds a whole number of lines, not zero, leaves something |
| Scroll.OneLineIsNotEmitted | src/input/src/scroll.rs:97-103 | one line and its one scheduled flush: 18 of 40 pixels are emitted, 22 stay pending with no flush to come |
| Scroll.RunConserves | src/input/src/scroll.rs:68-149 | over any run input equals output plus rest, up to half a pixel for each line-mode flush |
| Scroll.OneFlushPerBurst | src/input/src/scroll.rs:62-67 | exactly one flush is outstanding while the latch is set, none otherwise |
| Manager.Transition | src/jfn_rust/src/manager.rs:149-182 | next state and side effects for each state and message |
| Manager.HandleBatch | src/jfn_rust/src/manager.rs:138-143 | handles a batch in order, stopping at a shutdown |
| Manager.RunKeepsInv | src/jfn_rust/src/manager.rs:107-145 | wake-up, order and effect invariants in every interleaving of senders, signal handler and loop |
| Manager.EnqueuedIsSent | src/jfn_rust/src/manager.rs:113-130 | in every run what went into the queue is the messages sent, and a shutdown for each take behind the raised flag: a function of the steps alone |
| Manager.RunBehaves | src/jfn_rust/src/manager.rs:107-182 | no lost wakeup, messages handled in the order they were sent, hides and shows alternate, hidden exactly in Hidden or Suspended, shutdown at most once and last |
| Manager.ExitedIsFinal | src/jfn_rust/src/manager.rs:138-143 | once the loop has returned, nothing is handled or done in the rest of the run |
| Manager.SomeStepEnabled | src/jfn_rust/src/manager.rs:107-145 | unless all is quiet somebody can go on |
| Manager.RunSettles | src/jfn_rust/src/manager.rs:118-145 | without new messages every schedule comes to rest within a bound |
| Manager.StuckRunIsDone | src/jfn_rust/src/manager.rs:118-145 | where it rests every message sent is handled, or a shutdown has run; it has if one was requested or handled |
| Manager.SuspendedIffUnanswered | src/jfn_rust/src/manager.rs:57-62 | suspended exactly while a suspend has had no resume, whatever visibility changes came between |
| Manager.BatchContinues | src/jfn_rust/src/manager.rs:131-143 | how the queue is cut into batches does not change the state reached |
| Manager.LifeIsHistory | src/jfn_rust/src/manager.rs:118-145 | in every run the lifecycle state is that of the messages handled |
| Manager.HiddenIff | src/jfn_rust/src/manager.rs:158-171 | hidden exactly if a message hid the process while it was not suspended and none since showed or suspended it |
| Manager.RunLifeIs | src/jfn_rust/src/manager.rs:52-65 | in every run: shut down exactly if a shutdown was handled; until then suspended and hidden exactly as the messages handled say |
| Manager.BatchEffects | src/jfn_rust/src/manager.rs:131-143 | a batch does to the browsers what its messages change, however the queue is cut |
| Manager.EffectsAreChanges | src/jfn_rust/src/manager.rs:150-181 | in every run a hide or show stands exactly where the messages handled take the process out of sight or back, and the shutdown at the first message that asks for it; nothing else is done |
| Renames.RenameLookup | src/jellyfin/src/lib.rs:58-65 | the loop finds the target of the first entry under the key |
| Renames.RenamedIsFirstEntry | src/jellyfin/src/lib.rs:58-65 | that target is the one of the first entry, and there is none exactly if no entry has the key |
| Renames.ExpandWithRenames | src/jellyfin/src/lib.rs:67-89 | the nested loops yield the non-empty pieces and their targets, each where it first occurs |
| Renames.ExpansionIsClosure | src/jellyfin/src/lib.rs:67-89 | a name is in the expansion exactly if it is non-empty and a piece of an input or the target of one |
| Renames.ExpansionIsClean | src/jellyfin/src/lib.rs:67-89 | names are distinct, non-empty and free of commas |
| Renames.ExpansionIsFollowed | src/jellyfin/src/lib.rs:80-87 | each renamed name has its target before it or right behind it |
| Renames.ExpansionIsInOrder | src/jellyfin/src/lib.rs:67-89 | names stand in the order of the first pieces of the joined inputs that bring them, a piece before its own target |
| Renames.ExpansionIsIdempotent | src/jellyfin/src/lib.rs:67-89 | expanding an expansion gives it back in the same order |
| Renames.SplitOfJoin | src/jellyfin/src/lib.rs:101-103 | splitting joined names on commas gives the names back |
| Renames.JoinOfSplit | src/jellyfin/src/lib.rs:101-103 | joining the pieces of a string gives the string back |
| Renames.ShippedTables | src/jellyfin/src/lib.rs:33-43 | for both tables: all of this, also after the server's splitting of the joined list |
| Renames.FilterKeepsOrder | src/jellyfin/src/lib.rs:91-99 | an ordered sublist with exactly the allowed items |
| Renames.TranscodeListFits | src/jellyfin/src/lib.rs:49-56 | for any decoders: ordered sublist of the curated list, exactly the decodable ones, at most 40 characters of the server's pattern, read back by splitting |
| Renames.TranscodeAudioCsvs | src/jellyfin/src/lib.rs:120-155 | the two lists as the profile computes them from the audio decoders |
| Transition.TransitionGate.BeginCapturing | src/compositor_core/src/transition.rs:96-99 | enters the transition with the size captured, in progress or not |
| Transition.TransitionGate.BeginCapturingIfIdle | src/compositor_core/src/transition.rs:101-107 | begins exactly if idle |
| Transition.TransitionGate.End | src/compositor_core/src/transition.rs:109-114 | clears everything |
| Transition.TransitionGate.SetExpected | src/compositor_core/src/transition.rs:116-128 | stores the target unless it is the size captured by the transition in progress |
| Transition.TransitionGate.NoteWindowSize | src/compositor_core/src/transition.rs:146-155 | a positive window size ends the transition if forced or new |
| Transition.TransitionGate.MainPresentDecision | src/compositor_core/src/transition.rs:157-168 | present, reject, or end the transition and present |
| Transition.BeginsBalanceEnds | src/compositor_core/src/transition.rs:96-168 | over any run begins from the idle gate minus ends is 0 or 1, and 1 exactly in transition |
| Transition.InTransitionIff | src/compositor_core/src/transition.rs:96-168 | in transition exactly from a begin until an operation that closes it; a captured size exists exactly then |
| Transition.CapturedIsKept | src/compositor_core/src/transition.rs:91-107 | the captured size is that of the last begin that captured, and stays until the next one, on Windows for the whole transition |
| Transition.FrameDuringTransition | src/compositor_core/src/transition.rs:157-168 | a frame during a transition is let through exactly if positive and not of the size captured last |
| Transition.PresentedAsIsIff | src/compositor_core/src/transition.rs:157-160 | a frame is presented as it is, changing nothing, exactly if no transition is in progress |
| Transition.FrameOfFirstSizeIff | src/compositor_core/src/transition.rs:96-107 | a late frame of the size captured first ends the transition exactly if the begin that captured last captured another size |
| Transition.WindowsRejectsFirstSize | src/compositor_core/src/transition.rs:101-107 | where unfinished transitions ignore begins, such a frame is always rejected |
| Transition.ResizesDropIff | src/x11/src/surface.rs:447-454 | whatever came before, after a series of resizes a positive frame is dropped exactly if it has the size before the last one |
| Transition.StaleFramesDroppedIff | src/x11/src/surface.rs:247-259 | exactly the stale ones among frames of the sizes passed through are dropped if and only if the last two sizes are the only ones |
| Transition.LateFrameIsPresented | src/x11/src/surface.rs:247-259 | two resizes in a row: a frame of the first size is presented |
| Transition.NewSizeRecovers | src/compositor_core/src/transition.rs:157-168 | after any run, one positive frame of another size is presented and leaves the gate idle |
| Transition.ExpectedCanBeCaptured | src/x11/src/make_platform.rs:193-197 | a transition begun behind a resize: begin at A, expect B, begin at B: expected equals captured, a frame of size B is rejected and one of size A let through |
| Transition.ExpectedIsCapturedIff | src/compositor_core/src/transition.rs:116-128 | expected equals captured exactly if it was armed before the begin that captured it and no other size since |
| Transition.ExpectedIff | src/compositor_core/src/transition.rs:109-168 | after any run the expected size is that of the last operation that armed the gate with a size not then captured, unless an end came since |
| SurfaceStacks.SurfaceStack.AddLive | src/compositor_core/src/stack.rs:54-61 | appends to the live surfaces; the first becomes main |
| SurfaceStacks.SurfaceStack.Remove | src/compositor_core/src/stack.rs:63-77 | the surface is nowhere any more; if it was main, main is the stack's bottom, else the first live one |
| SurfaceStacks.SurfaceStack.ReplaceStack | src/compositor_core/src/stack.rs:79-85 | the whole order, with its bottom as main |
| SurfaceStacks.SurfaceStack.ClearStack | src/compositor_core/src/stack.rs:87-90 | empties the order only |
| SurfaceStacks.SurfaceStack.PushStack | src/compositor_core/src/stack.rs:92-96 | puts the surface on top |
| SurfaceStacks.SurfaceStack.SetMainToStackFirst | src/compositor_core/src/stack.rs:98-105 | main is the bottom, or as before if there is none |
| SurfaceStacks.SurfaceStack.TakeLive | src/compositor_core/src/stack.rs:127-133 | hands out the live surfaces and resets all |
| SurfaceStacks.SurfaceStack.TakeStack | src/compositor_core/src/stack.rs:135-140 | hands out the order and resets main |
| SurfaceStacks.MacMainIsBottom | src/compositor_core/src/stack.rs:11-13 | over any macOS run main is the bottom of the stack and nothing is live |
| SurfaceStacks.WindowsMainIsLive | src/compositor_core/src/stack.rs:14-18 | over any Windows run that pushes live handles only: main is live, and there is one exactly if any surface is live |
| SurfaceStacks.RestackKeepsInvIff | src/compositor_core/src/stack.rs:87-105 | a restack keeps stack and main live exactly if every handle pushed is live |
| SurfaceStacks.RestackKeepsMainLiveIff | src/compositor_core/src/stack.rs:92-105 | main is live after a restack exactly if nothing was pushed or the bottom handle is live |
| SurfaceStacks.DeadBottomBecomesMain | src/compositor_core/src/stack.rs:92-105 | after any run, a restack with a dead handle at the bottom makes it main |
| SurfaceStacks.LiveIff | src/compositor_core/src/stack.rs:54-77 | live exactly if added and neither removed nor taken since |
| SurfaceStacks.ListsAreHoldings | src/compositor_core/src/stack.rs:54-140 | after any run live surfaces and stack are, in order, what the operations brought and no later one removed or emptied |
| SurfaceStacks.RemovalPromotes | src/compositor_core/src/stack.rs:63-77 | after any run: where main is removed, the bottom of what is left of the stack becomes main, else the first live surface, else none; any other removal leaves main |
| SurfaceStacks.MainStays | src/compositor_core/src/stack.rs:52-61 | a main surface stays main until it is removed, a new order names another, or all are taken |
| SurfaceStacks.Restack | src/compositor_core/src/stack.rs:87-105 | a whole restack leaves exactly the handles pushed, the bottom one main; an empty one keeps main |

## Left out

- Rendering and platform code: GPU, AppKit, Wayland, X11 apart from how it drives the resize gate, browser callbacks, scripts in pages, FFI; nothing in it is decidable from the source.
- The client's lifecycle and reset states, coordinate conversions, server probe, updater, command line, paths and resource serving.
- Lookup tables for keys, injections and log categories, colour parsing, theme colours and menu ownership: nothing can be said of them beyond what their entries say.
- `settings_save` racing the worker, the path a snapshot is written to, failing writes, and the text form of the JSON; JSON keys are constructors instead of strings, and nulls, arrays and objects under a key are one value.
- The JSON sent to the renderer (`cli_json`) and the getters and setters of single settings.
- A shutdown call behind one that stops the writer, which returns at once without waiting; the point within a save at which the writer is created, here the step that begins the save.
- Failing renames, truncations and writes in log rotation; the flush before a rotation.
- Replacement of invalid UTF-8 in captured lines, the polling and signalling of the capture thread; an unterminated last line stays unread, as in the program.
- Acquiring, configuring and presenting the surface; frames passed as shared buffers; what a fresh texture holds before it is written.
- Device names and settings strings outside ASCII: the program cuts bytes and fails inside a character.
- A resize on another thread racing a tick of the invalidate loop; posting a task is taken to succeed; counters of 32 bits do not wrap.
- The window's boost of the page's own animation loop and the passive scheduler, which does nothing.
- The clock, the version-control state and the text form of the build date.
- The other parts of the device profile (direct-play and subtitle entries, address normalisation).
- The macOS entry points of the transition gate, which never capture a size.
- Calls on layers that are not live: the program dereferences the address, so its callers must not make them. A browser registry that does not exist yet.
- Browsers.Browsers.Remove: stated for live layers in a duplicate-free list, which `Browsers.HistoryConsistent` shows every history keeps.
- Painter.ClipRect: asks that the rectangle's corners be 32-bit numbers, because the source's sums overflow otherwise.
