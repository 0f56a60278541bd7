# Farder client: verified model

Farder is a chat application with a Rust/Tauri desktop client. This project models the parts of the
client whose behaviour is hardest to see by reading one function, and proves what they keep:

* **Audio.** The streaming linear resampler, the capture callback (downmix, resample, chunk), the
  playback callback (pull, resample, upmix, fill) and the offline resampler of `play_audio_file`. The
  stateful, split-anywhere forms are classes and loops that refine one closed form on the whole stream.
  Read positions are exact: the source's `pos` is kept as `pos * out_rate`, an integer, so that one
  output sample moves it by `in_rate`. Samples are reals.
* **The MLS steward.** The command that folds an ordered control log into the local group, with its two
  durable parts (the MLS store and the record file, healed when loaded) kept apart so that a run may be
  cut anywhere. The epoch rule is the one of section 12.4.2 of RFC 9420. The other commands of a channel
  -- sends with their repairs and resync, rekey, decrypt, reset -- work on the same two parts
  (`ChannelState`, `ChannelCommands`); what poisoning stops is in `Poison`, what the send counter and
  the rekey policy keep is in `RekeyCadence`.
* **The device event chain.** All interleavings of the commands that load, build, submit, advance and
  save under the chain lock, against a server that may reject anything and may lose its reply.
* **Recording sessions** and **request/response multiplexing**: two small concurrent protocols, one move
  per atomic access.
* **Invite links**, as the client prints and parses them and as the website decodes them independently;
  base64url is the one of section 5 of RFC 4648.
* **Three loops**: the WebP chunk walk (section 2.3 of RFC 9649), the screenshare rate cap, and the
  call-graph closure of the reachability audit.

Where a property one might expect turns out false of the code, the code is modelled as it is and the
exact condition is proved instead:

* splitting a device stream into callbacks is inaudible exactly when no cut falls inside a complete
  frame (`Tearing.SplitInvisibleIff`);
* replaying a numbered control log converges exactly when it holds no commit, or my Welcome is not older
  than a commit before it and the first commit that fails a gate, if any, is an impostor whose reason
  does not carry the text that a load clears (`StewardReplay.ConvergesIff`);
* over every history of runs, cut anywhere, the confirmation is lost exactly when the joining run is cut
  between joining and saving (`StewardReplay.ConfirmationSurvivesIff`), and a merged impostor's poison
  flag exactly when the run that merged it is cut between merging and saving, or a load clears its reason
  (`StewardReplay.PoisonSavedIff`, `StewardReplay.PoisonConvergesIff`); likewise the epoch in the record
  (`StewardReplay.EpochSavedIff`);
* a poisoned record blocks every later command exactly when its reason lacks the marker text
  (`Poison.PoisonIsTerminalIff`);
* the send counter is the number of sends since the last accepted own commit exactly when the last
  repairing commit, which nobody notes, found it at zero (or it was restarted since) and no rate refusal
  has restarted it since the last accepted own commit; it counts too many exactly after such a repair and too few
  exactly after such a refusal (`RekeyCadence.CounterIsExactIff`);
* the saved chain head is true exactly when no acceptance was lost on its way back
  (`DeviceChain.HeadIsTrueIff`);
* a submitted event meets the server's rules exactly when it is not a deletion from a device that is
  still unauthorized (`DeviceChain.SubmissionIsAcceptableIff`);
* recording sessions keep flag and slot, through any failures, exactly when no reset takes place while
  these belong to another live session (`RecordingFailures.IntegrityIff`);
* request ids stay unique exactly for up to 2^32 requests (`Multiplex.UniqueIff`);
* the website reads an invite as the client does exactly for non-empty ASCII text
  (`Website.WebsiteRecoversIff`), and rebuilds a direct link exactly for codes without reserved
  characters (`Website.RebuildsDirectLinkIff`).

Where the code and its comments differ, the code is followed. The steward's comment says that every
commit before the own Welcome predates the membership; a commit that lands between an add and its Welcome
does not, and is skipped all the same. The comment in the failure path of `start_recording` calls the
second flag reset a precaution; it can hit a newer session (`Recording.LateCleanUpHitsNewerSession`). The
comment of `MlsChannelState::load` says that a real poisoning is never healed; the code looks only for
the marker text, which a reason may contain. The comment of `note_own_commit` says that the counter restarts with every accepted commit, and the field's
that it counts the sends since the last own commit; the commits by which a send repairs the channel are
not noted, and a rate refusal of an unasked rekey is noted although no commit was accepted.

Layout: one module per file. `Seqs` and `Arith` hold shared vocabulary. Check everything with
`dafny verify dfyconfig.toml`.

## Model

| member | source | states |
|---|---|---|
| `Resampler.EmittedReach` | client/src-tauri/src/audio_cpal.rs:215-234 | Output k exists exactly when its position k·in/out falls before the last of the n inputs. |
| `Resampler.EmittedIsCeiling` | client/src-tauri/src/audio_cpal.rs:215-234 | After n ≥ 1 inputs the number of outputs is the ceiling of (n−1)·out/in, and no other number is. |
| `Resampler.EmittedMonotone` | client/src-tauri/src/audio_cpal.rs:215-234 | More input never means fewer outputs. |
| `Resampler.SampleAt` | client/src-tauri/src/audio_cpal.rs:223-230 | Output k is the piecewise-linear curve through the whole stream read at k·in/out. |
| `Resampler.ResampledPrefix` | client/src-tauri/src/audio_cpal.rs:202-235 | Causality: what a prefix of the stream resamples to is a prefix of what the stream resamples to. |
| `Resampler.SampleIsCurve` | client/src-tauri/src/audio_cpal.rs:223-230 | Every output of the closed form is the curve at its position, and that position is inside the stream. |
| `Resampler.SampleBetweenNeighbours` | client/src-tauri/src/audio_cpal.rs:224-229 | No overshoot: every output lies between its two neighbouring inputs, which exist. |
| `Resampler.LinesAreReproduced` | client/src-tauri/src/audio_cpal.rs:223-230 | On any straight-line signal output k is the line's value at time k·in/out. |
| `Resampler.LinearResampler.constructor` | client/src-tauri/src/audio_cpal.rs:192-199 | A new resampler has seen nothing; a zero output rate gives step 1. |
| `Resampler.LinearResampler.Process` | client/src-tauri/src/audio_cpal.rs:202-235 | A call appends exactly the samples of the closed form of everything fed so far that were not emitted before; the carried position stays ≥ 0 and `prev` is the last input. |
| `Resampler.LinearResampler.Interpolate` | client/src-tauri/src/audio_cpal.rs:219-234 | The loop reads only in range, ends, and emits the closed form's next samples. |
| `Resampler.ReadIsCurve` | client/src-tauri/src/audio_cpal.rs:218-229 | Reading the virtual buffer (`prev`, then the slice) is reading the curve of the whole stream. |
| `Resampler.ResampleSlices` | client/src-tauri/src/audio_cpal.rs:202-235 | For every list of slices, empty and one-sample ones included, the calls together emit the closed form of the concatenation. |
| `Capture.DownmixBounds` | client/src-tauri/src/audio_cpal.rs:162-167 | A downmixed frame stays within the range of its channels. |
| `Capture.DownmixIsAverage` | client/src-tauri/src/audio_cpal.rs:162-167 | Times the number of channels a downmixed frame is their total; silence for an empty frame. |
| `Capture.MonoFrame` | client/src-tauri/src/audio_cpal.rs:455-464 | Mono sample f is the downmix of exactly frame f of the device stream. |
| `Capture.MonoCount` | client/src-tauri/src/audio_cpal.rs:455-464 | There is one mono sample per complete frame; a trailing partial frame gives none. |
| `Capture.MonoConcat` | client/src-tauri/src/audio_cpal.rs:455-464 | Whole frames in front do not move later frame boundaries. |
| `Capture.MonoEachAligned` | client/src-tauri/src/audio_cpal.rs:453-464 | Frame-aligned callbacks downmix to the downmix of the whole stream. |
| `Capture.CutBlocks` | client/src-tauri/src/audio_cpal.rs:473-483 | Chunk i is the i-th block of `samples_per_chunk` samples. |
| `Capture.CutCount` | client/src-tauri/src/audio_cpal.rs:473-483 | The number of chunks and the leftover length are the quotient and the remainder. |
| `Capture.CutUnique` | client/src-tauri/src/audio_cpal.rs:473-483 | There is only one way to cut a stream into full chunks and a shorter leftover. |
| `Capture.Downmix` | client/src-tauri/src/audio_cpal.rs:454-464 | The downmix loop computes the frame-by-frame specification. |
| `Capture.Convert` | client/src-tauri/src/audio_cpal.rs:465-472 | At equal rates the samples pass through unchanged; at different rates they extend the resampled stream by exactly what the new samples determine. |
| `Capture.CaptureCallback.constructor` | client/src-tauri/src/audio_cpal.rs:438-448 | The initial callback state satisfies the cut invariant on an empty stream. |
| `Capture.CaptureCallback.Chop` | client/src-tauri/src/audio_cpal.rs:473-483 | Chunks offered and `buffered` remain the cut of everything received. |
| `Capture.CaptureCallback.Process` | client/src-tauri/src/audio_cpal.rs:453-484 | After a callback the chunks offered followed by `buffered` are the mono stream so far, resampled if the rates differ, cut into full chunks. |
| `Capture.BuildCapture` | client/src-tauri/src/audio_cpal.rs:421-448 | Refused exactly for zero channels or empty chunks; otherwise a valid fresh callback. |
| `Capture.RunCapture` | client/src-tauri/src/audio_cpal.rs:453-484 | For every run of callbacks the chunks, all full, followed by the leftover, are the mono stream itself at equal rates and its resampling at different ones; for frame-aligned callbacks that is a function of the concatenated device samples alone. |
| `Capture.CaptureIgnoresSplit` | client/src-tauri/src/audio_cpal.rs:453-484 | Two frame-aligned deliveries of one stream offer the same chunks and leftover. |
| `Capture.TornFrameIsLost` | client/src-tauri/src/audio_cpal.rs:455-456 | A concrete unaligned split that loses a frame. |
| `Tearing.UntornIsSeamless` | client/src-tauri/src/audio_cpal.rs:453-464 | If no cut falls inside a complete frame, the callbacks downmix as the whole stream does. |
| `Tearing.TornIsHeard` | client/src-tauri/src/audio_cpal.rs:455-456 | A cut inside a complete frame changes the output of some stream of the same callback lengths. |
| `Tearing.SplitInvisibleIff` | client/src-tauri/src/audio_cpal.rs:453-464 | Callback lengths are inaudible for every stream if and only if no cut falls inside a complete frame. |
| `Playback.SpreadAt` | client/src-tauri/src/audio_cpal.rs:171-175 | Slot c of device frame i carries mono sample i. |
| `Playback.UpmixInto` | client/src-tauri/src/audio_cpal.rs:171-175 | Appends the sample once per channel, at least once. |
| `Playback.Expand` | client/src-tauri/src/audio_cpal.rs:545-551 | Appends the mono samples as they are if the counts agree, else each of them on every device channel in turn. |
| `Playback.LaidPlays` | client/src-tauri/src/audio_cpal.rs:534-555 | The stream laid out for the device is the pulled stream, resampled if the rates differ, with each sample on every channel. |
| `Playback.NewestIsLast` | client/src-tauri/src/audio_cpal.rs:533-558 | What counts as the newest chunk is what the stream has with it beyond what it has without it. |
| `Playback.PlaybackCallback.constructor` | client/src-tauri/src/audio_cpal.rs:518-528 | The initial state conserves the empty stream. |
| `Playback.PlaybackCallback.Arrive` | client/src-tauri/src/audio_cpal.rs:516-516 | A chunk joins the end of the queue and nothing else changes. |
| `Playback.PlaybackCallback.Pull` | client/src-tauri/src/audio_cpal.rs:535-552 | Pulling moves one chunk from queue to stream and keeps everything played and pending equal to the laid-out conversion of the chunks pulled. |
| `Playback.PlaybackCallback.PullUntil` | client/src-tauri/src/audio_cpal.rs:534-555 | Stops with enough pending or an empty queue, never more than one chunk too far. |
| `Playback.PlaybackCallback.Drain` | client/src-tauri/src/audio_cpal.rs:556-558 | Removing what was played leaves less than the newest chunk pending. |
| `Playback.Copy` | client/src-tauri/src/audio_cpal.rs:556-561 | The buffer holds the taken samples, then silence. |
| `Playback.PlaybackCallback.Fill` | client/src-tauri/src/audio_cpal.rs:533-562 | The buffer continues the stream; silence only when queue and pending are both exhausted; less than one expanded chunk stays pending; all played plus pending is the pulled stream, resampled if need be, on every device channel. |
| `Playback.RunPlayback` | client/src-tauri/src/audio_cpal.rs:533-562 | Conservation over any run of arrivals and requests: audible output followed by `pending` plays the chunks pulled, in order, resampled if need be, with sample f in slot f·dev + c for every channel c; the queue is the rest; buffers have the sizes asked for; less than the newest chunk is pending; and a buffer with any silence in it has, with those before it, played everything that had arrived when it was asked for. |
| `Offline.StridedAt` | client/src-tauri/src/commands.rs:3659-3664 | Sample i of a channel is sample ch + i·channels of the file, and exists exactly when that index does. |
| `Offline.StridedEven` | client/src-tauri/src/commands.rs:3659-3664 | Whole frames give every channel the same number of samples. |
| `Offline.ResampleChannel` | client/src-tauri/src/commands.rs:3667-3676 | The offline loop computes the streaming resampler's closed form. |
| `Offline.StreamAndOffline` | client/src-tauri/src/commands.rs:3667-3676 | Under any slicing of a channel the streaming resampler and the offline loop give the same samples. |
| `Offline.Interleave` | client/src-tauri/src/commands.rs:3681-3685 | Writing one channel changes exactly that channel's slots. |
| `Offline.ResampleFile` | client/src-tauri/src/commands.rs:3652-3690 | Slot ch + i·channels holds resampled sample i of channel ch, or silence past that channel's end. |
| `Offline.NoGap` | client/src-tauri/src/commands.rs:3678-3685 | With whole frames in the file no slot is left silent. |
| `Offline.FitFrame` | client/src-tauri/src/commands.rs:3701-3713 | One frame is extended to the device channels, each slot from the right file slot. |
| `Offline.FitChannels` | client/src-tauri/src/commands.rs:3692-3715 | Device slot c of a frame is that frame's file channel c, or its last channel where the file has fewer; equal counts pass through. |
| `Steward.StewardDevice.HandleEvent` | client/src-tauri/src/commands.rs:5782-5920 | One event moves store and record as the specification says, also when cut right after the store change; merged epochs lead from the old group to the new. |
| `Steward.StewardDevice.Fold` | client/src-tauri/src/commands.rs:5782-5928 | The loop over a batch and the final save leave exactly what the fold says, wherever they are cut. |
| `Steward.CursorMoves` | client/src-tauri/src/commands.rs:5835-5866 | For every log the saved cursor moves only at the end of a batch or with a poisoning; a gap names an epoch ahead of the group. |
| `Steward.StewardDevice.Process` | client/src-tauri/src/commands.rs:5729-5928 | For every log, even malformed: commits merged carry epochs g, g+1, …, each once; a gap leaves the saved cursor alone; the cursor moves only when the batch is consumed or the group poisoned. |
| `Steward.ReadsFromCursor` | client/src-tauri/src/commands.rs:5747-5770 | A run not restarted earlier never looks at an event before the saved cursor. |
| `StewardReplay.ReplayIsSkipped` | client/src-tauri/src/commands.rs:5829-5834 | Every event the store already reflects is recognised and changes nothing. |
| `StewardReplay.StepForward` | client/src-tauri/src/commands.rs:5796-5913 | The next event takes effect exactly once and brings store and record one step further. |
| `StewardReplay.RunKeepsFaith` | client/src-tauri/src/commands.rs:5782-5928 | A run cut at save points, from any earlier restart, keeps store, record and cursor in step with a prefix of the log. |
| `StewardReplay.HistoryKeepsFaith` | client/src-tauri/src/commands.rs:5747-5928 | So does any history of such runs. |
| `StewardReplay.ReplayConverges` | client/src-tauri/src/commands.rs:5747-5928 | After any history of restarts, batches and cuts at save points, one complete run ends in exactly the state of one uninterrupted run (only a poisoned record may have another cursor). |
| `StewardReplay.ConvergesIff` | client/src-tauri/src/commands.rs:5719-5928 | For every numbered log that holds if and only if there is no commit, or the Welcome is not older than a commit before it and the first commit that fails a gate, if any, is an impostor whose reason survives a load. |
| `StewardReplay.StaleThenCommits` | client/src-tauri/src/commands.rs:5835-5840 | A stale Welcome followed by commits: replay diverges. |
| `StewardReplay.StaleAfterCommits` | client/src-tauri/src/commands.rs:5792-5796 | A stale Welcome after the last commit: replay diverges too. |
| `StewardReplay.MismatchDiverges` | crates/farder-e2ee-client/src/commit.rs:355-370 | A commit whose declared metadata lies: replay diverges. |
| `StewardReplay.HealDiverges` | client/src-tauri/src/mls_state.rs:144-153 | An impostor whose reason carries the marker: the next load clears the flag and replay diverges. |
| `StewardReplay.RunKeepsStep` | client/src-tauri/src/commands.rs:5782-5928 | A run cut anywhere over any numbered log with a current Welcome takes events into effect in order, and saves confirmation, poison flag and epoch exactly unless cut right before the save; a complete one ends at the first fault. |
| `StewardReplay.HistoryKeepsStep` | client/src-tauri/src/commands.rs:5747-5928 | Over any history, cut anywhere, of any such log: which commits are merged, by which attempt, and that confirmation, poison and epoch in the record are those of the attempts that joined and merged. |
| `StewardReplay.ConfirmationSurvivesIff` | client/src-tauri/src/commands.rs:5880-5916 | Cut anywhere, the confirmation is that of one run if and only if the joining attempt was not cut between joining and saving; where no commit fails a gate group and cursor converge in any case. |
| `StewardReplay.PoisonSavedIff` | client/src-tauri/src/commands.rs:5841-5853 | Over every history of such a log, cut anywhere, with any faults: the record is poisoned if and only if some merged impostor, with a reason that survives a load, was merged by an attempt not cut before saving, and then with its reason. |
| `StewardReplay.PoisonConvergesIff` | client/src-tauri/src/commands.rs:5841-5853 | Cut anywhere, and with a complete run at the end, group and poison are those of one run if and only if no commit fails a gate, or the first that does is a lying one, or the attempt that merged it was not cut before saving. |
| `StewardReplay.EpochSavedIff` | client/src-tauri/src/commands.rs:5820-5828 | While an honest commit is the last merged, the record shows its epoch if and only if the attempt that merged it was not cut before saving. |
| `StewardReplay.PoisonFlagCanBeLost` | client/src-tauri/src/commands.rs:5841-5853 | A concrete history after which the impostor is merged and the record is clean. |
| `StewardReplay.AdvancesIff` | client/src-tauri/src/commands.rs:5820-5840 | A joined device consumes an honest log if and only if the first commit from its restart on is not ahead of its group; then it ends at the last epoch, otherwise nothing changes. |
| `ChannelState.ContainsIff` | client/src-tauri/src/mls_state.rs:144-149 | The marker is looked for anywhere in the reason. |
| `ChannelState.HealClearsOnlyTheFlag` | client/src-tauri/src/mls_state.rs:132-157 | A load clears the flag exactly when the reason holds the marker somewhere, and nothing else. |
| `ChannelCommands.DeliverIff` | crates/farder-e2ee-client/src/keepalive.rs:181-222 | How a send ends, and how many own commits it makes, in terms of the server's answers: one repair and one retry per try, a second try only after pending removals. |
| `ChannelCommands.SendLeaves` | client/src-tauri/src/commands.rs:6218-6330 | Beside the cadence a send moves the cursor only by a resync, where the next steward run then starts, and the recorded epoch only by a resync or an accepted rekey. |
| `ChannelCommands.StewardLeaves` | client/src-tauri/src/commands.rs:5675-5928 | A steward command is the fold over the log. |
| `ChannelCommands.RekeyLeaves` | client/src-tauri/src/commands.rs:7546-7590 | An accepted rekey leaves record and group at the next epoch; a refused one leaves the record alone. |
| `ChannelCommands.ResetLeaves` | client/src-tauri/src/commands.rs:7704-7768 | A reset leaves a channel that can be used at once and a steward that reads from the start. |
| `ChannelCommands.DecryptOpensIff` | client/src-tauri/src/commands.rs:6528-6545 | Messages open exactly with a group and an unpoisoned record. |
| `Poison.DeadStaysDead` | client/src-tauri/src/commands.rs:5732-5745 | A genuinely poisoned record: no run of steward runs over any logs, sends, rekeys, decryptions and failed resets changes store or file, or applies, sends or opens anything. |
| `Poison.PoisonIsTerminalIff` | client/src-tauri/src/mls_state.rs:132-157 | A poisoned record blocks every such run if and only if its reason lacks the marker. |
| `Poison.RecoversIff` | client/src-tauri/src/commands.rs:7704-7768 | A dead channel comes back in the course of a run of commands if and only if the run holds a successful reset. |
| `Poison.EquivocationRecords` | client/src-tauri/src/commands.rs:5841-5866 | A run that newly reports equivocation has merged an impostor's commit of the log and recorded its reason. |
| `Poison.EquivocationIsFinal` | client/src-tauri/src/commands.rs:5841-5866 | Whatever came before, after a steward run that reports equivocation nothing is applied, sent or opened until a reset succeeds. |
| `Poison.ResyncRecords` | client/src-tauri/src/commands.rs:6240-6254 | A send whose resync merges an impostor delivers nothing and saves the reason. |
| `Poison.ImpostorIsFinal` | client/src-tauri/src/commands.rs:5841-5866 | Over every run: once a steward run or a send has merged an impostor the channel is dead, and nothing changes or happens until a reset succeeds. |
| `Poison.DeadIsReported` | client/src-tauri/src/commands.rs:5732-5745 | Until then every steward run, over any log, reports equivocation. |
| `RekeyCadence.EffectsTell` | crates/farder-e2ee-client/src/keepalive.rs:181-222 | What happened tells exactly whether a send was delivered, own commits repaired the channel, or a rekey of its own was accepted, as the server's answers say. |
| `RekeyCadence.CadenceStep` | client/src-tauri/src/commands.rs:6281-6329 | What any command does to the cadence: accepted rekeys, rate refusals and resets restart the counter, delivered sends move it by one, repairs and everything else leave it. |
| `RekeyCadence.SendCadence` | client/src-tauri/src/commands.rs:6281-6329 | What the tail of a send leaves in the cadence: the noted epoch and rekey time, one send more, or nothing. |
| `RekeyCadence.BooksFollow` | client/src-tauri/src/commands.rs:6218-6329 | The bookkeeping used below follows every run: the same disk, and as count the deliveries since the last accepted own commit or reset in what happened. |
| `RekeyCadence.RunKeepsCadence` | client/src-tauri/src/commands.rs:5782-5928 | Steward runs do not touch the cadence. |
| `RekeyCadence.BooksBalance` | client/src-tauri/src/commands.rs:6218-6285 | Over every run the counter is that true count, plus what the last unnoted repair found, less what the last rate refusal struck off, saturated. |
| `RekeyCadence.CounterIsExactIff` | client/src-tauri/src/commands.rs:6218-6285 | So it is exact if and only if both are zero (or saturation hides them); too small exactly after such a refusal, too large exactly after such a repair. |
| `RekeyCadence.RepairIsNotNoted` | crates/farder-e2ee-client/src/keepalive.rs:195-204 | A concrete run: one send since the own commit that cleared the ceiling, and a counter of two. |
| `RekeyCadence.RefusalForgives` | client/src-tauri/src/commands.rs:6311-6325 | A concrete run: one send since the own commit that cleared the ceiling, and a counter of zero after the rate refusal. |
| `RekeyCadence.CadenceHolds` | client/src-tauri/src/mls_state.rs:98-116 | Between two notes only the counter moves, by one for each delivered send. |
| `RekeyCadence.RekeyTriedIff` | crates/farder-e2ee-client/src/rekey.rs:161-229 | Until the next note a delivered send is followed by an unasked rekey if and only if a week or a hundred sends have gone by (or there was none yet) and the group is min(4, max(1, identities)) epochs past the last noted commit (or there was none). |
| `DeviceChain.AppendBuilt` | client/src-tauri/src/commands.rs:4740-4761 | Accepting an event built from the true head extends the chain and yields the new true head. |
| `DeviceChain.LockKept` | client/src-tauri/src/commands.rs:4672-4679 | Only the lock holder is in the critical section, and it works from the saved head. |
| `DeviceChain.Effect` | client/src-tauri/src/commands.rs:4697-4738 | What any move does to one server's log, saved state and unsaved acceptance, and that nothing else changes them. |
| `DeviceChain.GoodKept` | client/src-tauri/src/commands.rs:4675-4738 | Every move keeps chain, authorization order and head agreement of every server. |
| `DeviceChain.AlwaysInv` | client/src-tauri/src/commands.rs:4653-4738 | The invariant holds in every reachable state. |
| `DeviceChain.AcceptedEventsFormAChain` | client/src-tauri/src/commands.rs:4653-4790 | In every interleaving with any rejections the accepted events have seq 0,1,2,…, prev the hash of the one before, lamport seq+1, and (by the client's own doing) one authorization before anything but deletions and at most one join; with the lock free the saved state is the true head. |
| `DeviceChain.EveryEventWasAskedFor` | client/src-tauri/src/commands.rs:4681-4738 | In every interleaving each accepted event was asked for by a command on that server: a text by a command posting that text, a join by a join, a deletion by a deletion, no authorization by a deletion. |
| `DeviceChain.SuccessMeansPosted` | client/src-tauri/src/commands.rs:4733-4738 | A command that reports success has exactly its own event in the log. |
| `DeviceChain.CommandGetsThrough` | client/src-tauri/src/commands.rs:4675-4738 | After any history, a command let through by lock and server ends with its own event as the newest of the log, right after the authorization if the device needed one. |
| `DeviceChain.AuthorizingRound` | client/src-tauri/src/commands.rs:4681-4699 | An accepted authorization leaves the same command in its critical section, ready for its own event. |
| `DeviceChain.KnownMemberIsRemembered` | client/src-tauri/src/commands.rs:6711-6716 | A join refused because of membership is remembered as joined, with the head unchanged. |
| `DeviceChain.JoiningTwiceIsHarmless` | client/src-tauri/src/commands.rs:6668-6670 | A join of a device that has joined succeeds without submitting anything. |
| `DeviceChain.AuthorizationComesFirst` | crates/farder-crypto/src/event_log_state.rs:776-802 | With the server's device rule the first accepted event is always the authorization, in every interleaving, and the only one where no reply was lost. |
| `DeviceChain.SubmissionIsAcceptableIff` | client/src-tauri/src/commands.rs:4681-4738 | What a command submits meets the server's rules if and only if it is not a deletion from a device that is still unauthorized. |
| `DeviceChain.DeletionSkipsAuthorization` | client/src-tauri/src/commands.rs:7892-7918 | A deletion on a fresh server is submitted as event 0 without authorizing the device, and the server refuses it. |
| `DeviceChain.HeadIsTrueIff` | client/src-tauri/src/commands.rs:4770-4790 | Against a chain-checking server the saved head is true if and only if no acceptance on that server was lost. |
| `DeviceChain.LossFreezesTheChain` | crates/farder-crypto/src/event_log_state.rs:804-826 | After a lost acceptance that server never accepts another event of this device. |
| `Recording.AlwaysInv` | client/src-tauri/src/commands.rs:3410-3429 | Token and session invariants hold in every reachable state. |
| `Recording.FlagMeansOneHolder` | client/src-tauri/src/commands.rs:3410-3429 | In every interleaving of successful starts and stops the flag is up exactly when there is one holder: a start before its slot write, the filled slot, or a stop after its take. |
| `RecordingFailures.StopsReturnTheirOwnSession` | client/src-tauri/src/commands.rs:3557-3582 | In every run, with any failures: a stop with an id returns the path published under that id, and no two stops return the same session. |
| `Recording.ClearingHitsOnlyItsOwn` | client/src-tauri/src/commands.rs:3579-3582 | A stop lowers the flag only for the newest session, leaving no holder. |
| `Recording.StartIff` | client/src-tauri/src/commands.rs:3410-3429 | A start gets through if and only if the flag is down; then its session and path are the live ones. |
| `Recording.StopTakesIff` | client/src-tauri/src/commands.rs:3563-3577 | A stop takes the session if and only if there is one and it is the one asked for, or none was named; else it changes nothing. |
| `Recording.LateCleanUpHitsNewerSession` | client/src-tauri/src/commands.rs:3533-3539 | A concrete interleaving in which a late clean-up takes flag and slot from a newer live session. |
| `RecordingFailures.IntegrityIff` | client/src-tauri/src/commands.rs:3410-3582 | Over every run with any failures, all sessions keep flag and slot throughout if and only if no reset (failed set-up, second reset, slot reset, stop) finds them with another live session. |
| `RecordingFailures.TokenWhenQuiet` | client/src-tauri/src/commands.rs:3524-3547 | Without such a hit the flag means exactly one holder whenever no clean-up is in progress. |
| `RecordingFailures.SuccessNeverHits` | client/src-tauri/src/commands.rs:3410-3429 | Where every set-up succeeds no reset ever hits. |
| `RecordingFailures.LiveSessionCanBeStopped` | client/src-tauri/src/commands.rs:3557-3582 | Without hits, a live session that nobody took can be stopped by its id, with its own path. |
| `RecordingFailures.FlagHitBreaks` | client/src-tauri/src/commands.rs:3537-3537 | A flag reset that hits leaves a live session without its flag. |
| `RecordingFailures.SlotHitBreaks` | client/src-tauri/src/commands.rs:3538-3538 | A slot reset that hits leaves a live session without its slot. |
| `Multiplex.AlwaysInv` | client/src-tauri/src/bridge.rs:13-27 | With at most 2^32 draws, ids are unique, every registered sender belongs to the caller of that id, and every waiting caller is registered. |
| `Multiplex.ResponseReachesItsCaller` | client/src-tauri/src/bridge.rs:48-52 | A response changes only the caller that was issued its id, and gives it exactly that body. |
| `Multiplex.WrittenRequestIsAnswerable` | client/src-tauri/src/bridge.rs:15-24 | A response to a written request always finds its sender. |
| `Multiplex.AnsweredOnce` | client/src-tauri/src/bridge.rs:48-52 | An answered caller keeps its answer for ever; its id is not routed again. |
| `Multiplex.AnswerHasASource` | client/src-tauri/src/bridge.rs:48-52 | Every answer was carried by a response frame with that id, received while the caller waited. |
| `Multiplex.UnknownIdIsDropped` | client/src-tauri/src/bridge.rs:48-52 | Duplicates and unknown ids change nothing. |
| `Multiplex.FailedWriteLeavesSender` | client/src-tauri/src/bridge.rs:17-24 | A request whose frame cannot be written leaves its sender in the map; a response to it is taken out and reaches nobody. |
| `Multiplex.RequestGetsThrough` | client/src-tauri/src/bridge.rs:13-27 | From any reachable state a new caller that makes its moves is given the server's answer under the next id. |
| `Multiplex.IdsCountUp` | client/src-tauri/src/state.rs:28-32 | Ids count up from 1 and wrap after 2^32 − 1. |
| `Multiplex.UniqueIff` | client/src-tauri/src/state.rs:28-32 | Ids are unique in every run with n draws if and only if n ≤ 2^32. |
| `Codecs.Utf8RoundTrip` | client/src-tauri/src/connection.rs:292-292 | Strict UTF-8 decoding undoes encoding. |
| `Codecs.HexRoundTrip` | client/src-tauri/src/connection.rs:61-76 | Hex decoding undoes encoding. |
| `Codecs.Base64RoundTrip` | client/src-tauri/src/connection.rs:289-291 | The strict unpadded base64url decoder undoes the encoder. |
| `Codecs.Utf8Strict` | client/src-tauri/src/connection.rs:292-292 | What the UTF-8 decoder accepts is the encoding of what it returns: no overlong forms, no surrogates. |
| `Codecs.Base64Strict` | client/src-tauri/src/connection.rs:289-291 | What the base64url decoder accepts is the encoding of what it returns: no padding, no stray bits. |
| `Codecs.Utf8Known` | client/src-tauri/src/connection.rs:292-292 | One-, two-, three- and four-byte encodings as in section 7 of RFC 3629. |
| `Codecs.HexKnown` | client/src-tauri/src/connection.rs:61-76 | Hex digits are lower case, high digit first. |
| `Codecs.AlphabetKnown` | client/src-tauri/src/connection.rs:289-291 | The alphabet of table 2 of RFC 4648. |
| `Codecs.Base64Known` | client/src-tauri/src/connection.rs:289-291 | Vectors of section 10 of RFC 4648. |
| `Codecs.Latin1OfUtf8Iff` | website/js/invite.js:38-38 | Reading UTF-8 bytes as Latin-1 gives the text back if and only if it is ASCII. |
| `Invite.FullLinkRoundTrip` | client/src-tauri/src/connection.rs:25-69 | Every full relay link parses back to address, id, fingerprint and code, whatever the code. |
| `Invite.CompactLinkRoundTrip` | client/src-tauri/src/connection.rs:29-38 | Every compact link expands to the default relay with the same id and code. |
| `Invite.CompactLinkWithoutToken` | client/src-tauri/src/connection.rs:29-38 | A compact link may come without a token; without a default relay it leads nowhere. |
| `Invite.KnownCompactLink` | client/src-tauri/src/connection.rs:74-76 | A compact link and a web link, letter by letter. |
| `Invite.KnownFullLink` | client/src-tauri/src/connection.rs:61-69 | A full link, letter by letter. |
| `Invite.CompactIff` | client/src-tauri/src/commands.rs:2371-2382 | The compact form is handed out exactly for servers on the default relay. |
| `Invite.RelayInviteRoundTrip` | client/src-tauri/src/commands.rs:2369-2382 | The link handed out for a relayed connection, full or compact, leads back to the same target with the new code and is never a direct invite. |
| `Invite.RelayIsNotDirect` | client/src-tauri/src/connection.rs:236-240 | Nothing that starts with the relay prefix is accepted as direct. |
| `Invite.DirectRoundTripIff` | client/src-tauri/src/connection.rs:236-254 | A direct link parses back if and only if the address is slash-free, not relay-like and has a numeric port, and the code is non-empty, no setup token and does not end in white space. |
| `Invite.DirectInviteRoundTripIff` | client/src-tauri/src/commands.rs:2384-2389 | The direct link that `create_invite` hands out parses back to server and code under exactly that condition. |
| `Invite.BareRoundTripIff` | client/src-tauri/src/connection.rs:236-254 | So does a bare `host:port/code`, whose address must not start with white space but may look like a relay. |
| `Invite.HasPortIff` | client/src-tauri/src/connection.rs:246-252 | An address is accepted exactly if it ends in a colon and digits. |
| `Invite.WhiteIff` | client/src-tauri/src/connection.rs:237-237 | White space is Unicode's: the 25 characters. |
| `Invite.WebRoundTrip` | client/src-tauri/src/connection.rs:271-293 | Unwrapping undoes base64url encoding plus wrapping, for every text. |
| `Invite.UnwrapsAnyScheme` | client/src-tauri/src/connection.rs:279-288 | https, http and the bare host are unwrapped alike, with white space in front. |
| `Website.Pad` | website/js/invite.js:37-37 | The padding loop ends at whole quads with at most three `=`. |
| `Website.AtobRoundTrip` | website/js/invite.js:36-38 | The website's translation, padding and decoding undo the client's encoder byte for byte. |
| `Website.WebsiteRecoversIff` | website/js/invite.js:33-38 | The website recovers the client's text if and only if it is non-empty ASCII. |
| `Website.DeepLinksPassThrough` | website/js/invite.js:39-41 | Every ASCII deep link passes through unchanged. |
| `Website.ParsesDirect` | website/js/invite.js:42-48 | A direct invite is split into the client's server and the Latin-1 reading of its code. |
| `Website.TokenIsCutOut` | website/js/invite.js:33-36 | The token ends at the first character that cannot be in one. |
| `Website.MatchIsLeftmost` | website/js/invite.js:33-36 | Of several possible tokens in a path the leftmost is taken. |
| `Website.InterpretIff` | website/js/invite.js:39-48 | Decoded text is a deep link, or a non-empty server up to the first slash and a code, or nothing. |
| `Website.QueryIsTheFallback` | website/js/invite.js:52-58 | Without a readable token the query parameters are used if and only if both are there. |
| `Website.EncodeUriIff` | website/js/invite.js:67-69 | Percent-encoding changes nothing if and only if all characters are unreserved. |
| `Website.EncodeUriRoundTrip` | website/js/invite.js:67-69 | Percent-encoding loses nothing: read back, any text gives its own UTF-8. |
| `Website.KnownEscapes` | website/js/invite.js:67-69 | Escapes are upper-case hex of UTF-8 bytes. |
| `Website.RebuildsDirectLinkIff` | website/js/invite.js:67-69 | The website rebuilds exactly the client's deep link if and only if the code is unreserved. |
| `RiffWalk.DetectAnimated` | client/src-tauri/src/book.rs:79-103 | On arbitrary bytes the walk ends, stays in bounds, does not overflow and equals the recursive chunk-walk definition. |
| `RiffWalk.WalkFindsAnim` | client/src-tauri/src/book.rs:86-98 | On serialized chunks the walk visits exactly the chunks and finds ANIM exactly when one has that tag. |
| `RiffWalk.DetectInFile` | client/src-tauri/src/book.rs:82-100 | A serialized file of at least 30 bytes is animated exactly when it has an ANIM chunk. |
| `EncodeCap.RunEncodeLoop` | client/src-tauri/src/screenshare.rs:63-99 | The loop's attempts are those of the step-by-step specification. |
| `EncodeCap.FrameIsEncodedIff` | client/src-tauri/src/screenshare.rs:71-87 | In every run a frame is encoded if and only if a keyframe was requested since the frame before or every earlier attempt is at least 1000/max(fps,1) ms old, and as a forced keyframe exactly in the first case. |
| `EncodeCap.NeverFreezes` | client/src-tauri/src/screenshare.rs:76-84 | Every frame has an encode attempt at its time or less than an interval before. |
| `EncodeCap.AttemptsAreSpaced` | client/src-tauri/src/screenshare.rs:76-84 | Every unforced attempt is a full interval after every earlier attempt. |
| `EncodeCap.UnforcedApart` | client/src-tauri/src/screenshare.rs:76-84 | Any two unforced attempts are at least an interval apart. |
| `EncodeCap.RateIsCapped` | client/src-tauri/src/screenshare.rs:64-84 | Any window of length T holds at most T/interval + 1 unforced attempts. |
| `EncodeCap.RequestIsHonoured` | client/src-tauri/src/screenshare.rs:72-87 | A keyframe request is encoded on the very next frame, however soon. |
| `Reachability.Scan` | scripts/reachability_audit.py:106-111 | The inner loop adds every wrapper the body calls, and only reached ones. |
| `Reachability.Closure` | scripts/reachability_audit.py:101-111 | The nested loop ends with exactly the reached wrappers: the least set holding the roots and closed under calls. |
| `Reachability.LeastClosed` | scripts/reachability_audit.py:101-111 | A closed set of reached wrappers that holds the roots is the set of all reached ones. |
| `Reachability.LedToIff` | scripts/reachability_audit.py:113-115 | A reached wrapper invokes a command if and only if some call path leads to such a wrapper. |
| `Reachability.LiveCommands` | scripts/reachability_audit.py:113-118 | Live commands are the direct ones and those of reached wrappers. |
| `Reachability.Audit` | scripts/reachability_audit.py:88-121 | A registered command is reported unreachable if and only if nothing invokes it directly and no call path leads to it. |

## Left out

- Rounding of f32 and f64, and drops by the bounded audio channels: positions are exact, samples are reals, and the claims are about chunks offered.
- A zero input rate, with which the resampling loop of `audio_cpal.rs` does not end; both rates are required to be positive (the resampler's own zero output rate is modelled).
- The stop flag of the encode loop (it only shortens a run), encoder failures and downscaling.
- Group resets and generations in the steward, a missing store (an immediate no-op), and the contents of commits: what the gates decide is a parameter of the event.
- `publish_own_key_package` and the add loop, which rebuild the record without its poison flag, are not among the commands of `ChannelCommands`.
- The end-to-end encrypted commands as writers of the device chain, whose chain state moves inside another crate; failing saves of the device state.
- Recording.FlagMeansOneHolder: for starts whose setup succeeds; with failures the exact condition is in `RecordingFailures`. The u64 session counter does not wrap.
- Recording.ClearingHitsOnlyItsOwn: for starts whose setup succeeds, likewise.
- StewardReplay.PoisonConvergesIff: not for logs whose first fault is an impostor with a reason that a load clears; what `ConvergesIff` and `PoisonSavedIff` say covers them.
- StewardReplay.PoisonSavedIff: like all results on cuts before a save, for a Welcome that is not older than a commit before it.
- The recording worker, which polls the flag every 100 ms: a stop followed at once by a start can leave it unaware of the stop.
- Failing saves of the record file. The epoch at which the network part of a send leaves the group is a parameter of the command.
- How a socket address is printed and parsed: a parameter whose round trip and freedom from slashes are assumed of the standard library.
- White space inside the string given to the browser's `atob`, which cannot occur after the token match; the website's page and the fallback's URL decoding.
- Finding names and calls by regular expression in the audit (the call relation is a parameter), and its allowlist.
- Transport, TLS, key storage, PIN wrapping, settings, themes, the book's file handling, tray, mock backends and all user interface.
