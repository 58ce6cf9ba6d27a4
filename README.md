# Voice capture, playback, participant paging and workspace membership — a Dafny model

This project models the core behaviour of a real-time meeting application. It has a browser front end and a Go back end.

- **Voice activity hook** (`useVoiceActivity.ts`):
  - the capped speech log;
  - the handlers for the audio socket's connection changes, messages and transcripts, including the subtitle and its clear timer;
  - the capture callback. It gates on "speaking and connected", buffers native-rate frames, and emits a chunk once `CHUNK_SIZE_NATIVE` samples are buffered. Emitting concatenates the frames in order, resamples them to 16 kHz by linear interpolation, counts, logs and sends;
  - the detector's speech start and end events.

  The hook is modelled as a class, `VoiceActivity.VoiceSession`, whose fields are the hook's state cells and refs. The chunks handed to the socket are a ghost `sent` sequence.
- **Audio player** (`audioPlayer.ts`): the MP3 magic-byte test, the partial options update, the lazily created audio context, and the playback pipeline. In that pipeline each enabled stage may fail and fall back to its input. `AudioPlayer.AudioPlayerService` and `AudioPlayer.AudioContext` are classes.
- **Participant sidebar** (`ParticipantSidebar.tsx`): local participant first, the `slice` window, the arrows and their handlers, and the track lookup. These are pure functions; `Array.prototype.slice` is modelled with its negative and clamped bounds.
- **Workspace handler** (`workspace.go`):
  - name validation;
  - the creation transaction, which inserts the workspace, the owner's member row and one row per invited user, and rolls back on any failed insert;
  - the membership check of the read and invite endpoints;
  - the invite loop, where each insert commits on its own and `added_count` counts the successes;
  - the response projection and the list total.

  The database is the handler's own tables in `Workspace.WorkspaceHandler`. Which inserts the database rejects is a parameter: the set of rejected attempt numbers.
- **Voice monitor** (`VoiceMonitor.tsx`): the status priority chain, the connection badge table, and the Start and Stop disabled conditions.
- **Audio level bar** (`AudioLevelBar.tsx`): the clamped percentage, the active threshold, and the five threshold dots.

Speech end does not flush a partial chunk: `onSpeechEnd` only logs and closes the gate. Frames buffered when a segment ends stay in the buffer and lead the first chunk of the next segment. The model shows this:

- `VoiceActivity.VoiceSession.OnSpeechEnd` leaves `audioBuffer` unchanged.
- `VoiceActivity.PartialChunkLeadsNextSegment` shows where a partial chunk ends up.

## Model

| member | source | states |
|---|---|---|
| SpeechLog.KeepLast | frontend/app/hooks/useVoiceActivity.ts:42 | `slice(-n)` keeps `min(n, len)` elements; `slice(-0)` keeps everything |
| SpeechLog.KeepLastIsSuffix | frontend/app/hooks/useVoiceActivity.ts:42 | what `slice(-n)` keeps is a suffix of the input, so the elements kept are the last ones |
| SpeechLog.Append | frontend/app/hooks/useVoiceActivity.ts:41-43 | the new entry is last; the log never exceeds the cap; below the cap nothing is evicted; the log grows by at most one |
| SpeechLog.AppendEvictsOldest | frontend/app/hooks/useVoiceActivity.ts:41-43 | the surviving old entries are the newest ones, in their original order |
| SpeechLog.KeepLastAbsorbs | frontend/app/hooks/useVoiceActivity.ts:41-43 | trimming before appending more and trimming again equals trimming once at the end |
| SpeechLog.AppendAllKeepsLast | frontend/app/hooks/useVoiceActivity.ts:41-43 | a run of appends leaves exactly the last `N` entries of everything logged |
| SpeechLog.LoggingNPlusFive | frontend/app/hooks/useVoiceActivity.ts:41-43 | logging `N + 5` entries into an empty log keeps all but the first five |
| Chunking.ChunkSizeNative | frontend/app/hooks/useVoiceActivity.ts:167-168 | `CHUNK_SIZE_NATIVE` is the floor of `1600 * native / 16000`, stated by its bracketing inequalities |
| Chunking.TotalLength | frontend/app/hooks/useVoiceActivity.ts:187 | `totalSamples`: the sum of the buffered frame lengths, as the `reduce` computes it |
| Chunking.Flatten | frontend/app/hooks/useVoiceActivity.ts:193-198 | the frames concatenated in buffer order, which the copy loop is proved to build |
| Chunking.FlattenLength | frontend/app/hooks/useVoiceActivity.ts:187-193 | the concatenated chunk is as long as the sum of the frame lengths the callback reduces |
| Chunking.FlattenAppend | frontend/app/hooks/useVoiceActivity.ts:193-198 | concatenation distributes over splitting the frame list, so frame order is kept |
| Chunking.TotalLengthPrefix | frontend/app/hooks/useVoiceActivity.ts:194-197 | the copy offset never passes the total length |
| Chunking.ConcatFrames | frontend/app/hooks/useVoiceActivity.ts:193-198 | the `set`-at-offset loop builds the in-order concatenation of the frames |
| Chunking.EmittedChunkSize | frontend/app/hooks/useVoiceActivity.ts:184-188 | a chunk emitted on the push that crosses the threshold has at least the threshold's length and less than the threshold plus the last frame |
| Chunking.FlattenPair | frontend/app/hooks/useVoiceActivity.ts:193-198 | two buffered frames concatenate to the first followed by the second |
| Chunking.ChunkAt48k | frontend/app/hooks/useVoiceActivity.ts:146-188 | at 48 kHz with 4096-sample frames the threshold is 4800, so one frame stays buffered and the second triggers an 8192-sample chunk |
| TypedArrays.Set | frontend/app/hooks/useVoiceActivity.ts:196 | `Float32Array.set` writes the source at the offset and leaves the rest of the target as it was |
| Resampler.OutputLength | frontend/app/hooks/useVoiceActivity.ts:153-154 | the output length is `floor(len / (fromRate / 16000))` |
| Resampler.SrcIndexFloor | frontend/app/hooks/useVoiceActivity.ts:157-158 | the whole part of the read position `i * fromRate / 16000` |
| Resampler.SrcIndexCeil | frontend/app/hooks/useVoiceActivity.ts:159 | the next index, clamped to the last valid index |
| Resampler.Weight | frontend/app/hooks/useVoiceActivity.ts:160 | the fractional part of the read position |
| Resampler.FloorSample | frontend/app/hooks/useVoiceActivity.ts:161 | the input sample at the whole part of the read position |
| Resampler.CeilSample | frontend/app/hooks/useVoiceActivity.ts:161 | the input sample at the clamped next index |
| Resampler.Interpolated | frontend/app/hooks/useVoiceActivity.ts:161 | output sample `i` as the weighted sum of its two neighbours |
| Resampler.ReadIndexBounds | frontend/app/hooks/useVoiceActivity.ts:157-160 | every read index is inside the input, the upper neighbour is at most one past the lower, and the weight lies in [0, 1) |
| Resampler.Resampled | frontend/app/hooks/useVoiceActivity.ts:152-164 | the resampled signal has the computed output length |
| Resampler.ResampleTo16k | frontend/app/hooks/useVoiceActivity.ts:152-164 | the index loop over the preallocated output produces the interpolated signal |
| Resampler.SameRateIsIdentity | frontend/app/hooks/useVoiceActivity.ts:152-164 | at 16 kHz the resampler returns its input unchanged |
| Resampler.OutputBetweenNeighbours | frontend/app/hooks/useVoiceActivity.ts:157-161 | each output sample lies between the two input samples it interpolates |
| Resampler.ConstantSignalStaysConstant | frontend/app/hooks/useVoiceActivity.ts:156-162 | a constant input resamples to the same constant |
| Resampler.TwoFramesAt48k | frontend/app/hooks/useVoiceActivity.ts:152-154 | an 8192-sample chunk at 48 kHz resamples to 2730 samples |
| VoiceActivity.ConnectionLogEntry | frontend/app/hooks/useVoiceActivity.ts:53-63 | connecting logs nothing; the error state logs an error entry; connected and disconnected log info entries |
| VoiceActivity.SessionPrefix | frontend/app/hooks/useVoiceActivity.ts:78 | an absent session id stays absent; a present one becomes its prefix of length `min(8, len)`, the whole id when it is short |
| VoiceActivity.VoiceSession.constructor | frontend/app/hooks/useVoiceActivity.ts:19-31 | initial state: empty log, level 0, disconnected, empty subtitle, gate closed, counter 0, nothing buffered or sent |
| VoiceActivity.VoiceSession.AddLogEntry | frontend/app/hooks/useVoiceActivity.ts:33-46 | the log becomes the capped append of the new entry |
| VoiceActivity.VoiceSession.ClearLog | frontend/app/hooks/useVoiceActivity.ts:251-253 | the log becomes empty |
| VoiceActivity.VoiceSession.OnConnectionChange | frontend/app/hooks/useVoiceActivity.ts:53-63 | the state is stored, "connected" is true exactly in the connected state, and the log gains that state's entry, if any |
| VoiceActivity.VoiceSession.OnMessage | frontend/app/hooks/useVoiceActivity.ts:64-84 | binary messages go to playback as MP3 (logged) or PCM; a ready control message logs the session prefix; other text changes nothing |
| VoiceActivity.VoiceSession.OnAudioMessage | frontend/app/hooks/useVoiceActivity.ts:65-73 | MP3 payloads are logged and queued for `playMp3`; other payloads are queued for `play` unlogged |
| VoiceActivity.VoiceSession.OnControlMessage | frontend/app/hooks/useVoiceActivity.ts:74-83 | only `status: "ready"` logs; unparsable text and other statuses change nothing |
| VoiceActivity.VoiceSession.OnTranscript | frontend/app/hooks/useVoiceActivity.ts:85-95 | the subtitle shows the text, the text is logged, and a fresh timer replaces any pending one |
| VoiceActivity.VoiceSession.SubtitleTimeoutFired | frontend/app/hooks/useVoiceActivity.ts:92-94 | only the pending timer can fire, and firing clears the subtitle |
| VoiceActivity.VoiceSession.CancelSubtitleTimer | frontend/app/hooks/useVoiceActivity.ts:255-260 | the unmount cleanup leaves no pending timer |
| VoiceActivity.VoiceSession.OnAudioProcess | frontend/app/hooks/useVoiceActivity.ts:171-211 | with the gate closed nothing changes; otherwise a chunk is emitted exactly when the buffered total reaches `CHUNK_SIZE_NATIVE`, and it is the resampled in-order concatenation of the buffer; the buffered total stays below the threshold between callbacks |
| VoiceActivity.VoiceSession.EmitChunk | frontend/app/hooks/useVoiceActivity.ts:188-210 | the counter rises by one, exactly one chunk is sent and logged with its number, and the buffer is emptied |
| VoiceActivity.VoiceSession.OnSpeechStart | frontend/app/hooks/useVoiceActivity.ts:235-240 | the counter resets to 0, a start entry is logged, and the gate opens; the counter then equals the chunks sent in this segment |
| VoiceActivity.VoiceSession.OnSpeechEnd | frontend/app/hooks/useVoiceActivity.ts:241-245 | the logged count equals the chunks sent since the onset; the gate closes; buffer and sent chunks are untouched |
| VoiceActivity.VoiceSession.OnFrameProcessed | frontend/app/hooks/useVoiceActivity.ts:246-248 | the level is the detector's speech probability |
| VoiceActivity.VoiceSession.OnSetupFailed | frontend/app/hooks/useVoiceActivity.ts:213-216 | a failed audio setup logs an error entry |
| VoiceActivity.SpeechEndKeepsPartialChunk | frontend/app/hooks/useVoiceActivity.ts:182-245 | a segment shorter than one chunk ends with "0 chunks" logged, nothing sent, and its frame still buffered |
| VoiceActivity.PartialChunkLeadsNextSegment | frontend/app/hooks/useVoiceActivity.ts:182-210 | the frame left over from the last segment is sent at the head of the next segment's first chunk |
| VoiceActivity.CarryOverScenario | frontend/app/hooks/useVoiceActivity.ts:182-245 | a one-frame segment followed by a second segment sends exactly one chunk, the first frame followed by the second, and leaves nothing buffered |
| VoiceActivity.ClosedGateScenario | frontend/app/hooks/useVoiceActivity.ts:182 | a frame arriving while not speaking or not connected is neither buffered nor sent |
| AudioPlayer.IsMp3 | frontend/app/services/audioPlayer.ts:110-122 | MP3 exactly when there are at least three bytes and they start with `ID3`, or with `0xFF` followed by a byte whose top three bits are set |
| AudioPlayer.IsMp3ReadsThreeBytes | frontend/app/services/audioPlayer.ts:110-122 | the verdict depends only on the first three bytes |
| AudioPlayer.IsMp3Examples | frontend/app/services/audioPlayer.ts:113-120 | an ID3 tag and an MPEG frame sync are recognised; arbitrary bytes and two-byte payloads are not |
| AudioPlayer.MergeOptions | frontend/app/services/audioPlayer.ts:24-26 | every field given in the update wins; every field left out keeps its current value |
| AudioPlayer.MergeOptionsLaws | frontend/app/services/audioPlayer.ts:24-26 | an empty update changes nothing, repeating an update changes nothing more, and a full update replaces everything |
| AudioPlayer.ApplyStage | frontend/app/services/audioPlayer.ts:47-63 | a disabled or failing stage passes its input through; otherwise its output is used |
| AudioPlayer.ProcessedSamples | frontend/app/services/audioPlayer.ts:45-63 | `processedData` after noise suppression and then DSP, each guarded by its option |
| AudioPlayer.UnprocessedFallback | frontend/app/services/audioPlayer.ts:45-63 | when every enabled stage fails, the original audio is played |
| AudioPlayer.AudioContext.constructor | frontend/app/services/audioPlayer.ts:19 | a new context has its sample rate, its initial state and nothing started |
| AudioPlayer.AudioContext.Resume | frontend/app/services/audioPlayer.ts:41-43 | resuming makes the context run |
| AudioPlayer.AudioContext.Close | frontend/app/services/audioPlayer.ts:128 | closing leaves the context closed |
| AudioPlayer.AudioContext.Start | frontend/app/services/audioPlayer.ts:77 | starting a source appends its buffer to what the context has rendered |
| AudioPlayer.CreateFilledBuffer | frontend/app/services/audioPlayer.ts:66-72 | a one-channel buffer at 16 kHz holding exactly the given samples |
| AudioPlayer.AudioPlayerService.constructor | frontend/app/services/audioPlayer.ts:10-15 | no context yet, and both stages enabled |
| AudioPlayer.AudioPlayerService.GetAudioContext | frontend/app/services/audioPlayer.ts:17-22 | the context is created once and the same one is returned afterwards |
| AudioPlayer.AudioPlayerService.SetOptions | frontend/app/services/audioPlayer.ts:24-26 | the options become the merge of the old options with the update |
| AudioPlayer.AudioPlayerService.GetOptions | frontend/app/services/audioPlayer.ts:28-30 | the returned copy equals the current options |
| AudioPlayer.AudioPlayerService.Play | frontend/app/services/audioPlayer.ts:38-78 | the context ends up running, and exactly one buffer holding the processed samples is started, or none when they are empty |
| AudioPlayer.AudioPlayerService.PlayMp3 | frontend/app/services/audioPlayer.ts:84-105 | the context ends up running; a decoded buffer is started, a failed decode starts nothing |
| AudioPlayer.AudioPlayerService.Close | frontend/app/services/audioPlayer.ts:124-131 | an existing context is closed and dropped |
| Sequences.Filter | frontend/components/video/ParticipantSidebar.tsx:24 | the kept elements satisfy the predicate and come from the input, and every input element that satisfies it is kept |
| Sequences.FilterAppend | frontend/components/video/ParticipantSidebar.tsx:24 | filtering preserves relative order |
| Sequences.FilterKeepsAll | frontend/components/video/ParticipantSidebar.tsx:24 | a predicate true of every element keeps the whole list |
| ParticipantSidebar.SortedParticipants | frontend/components/video/ParticipantSidebar.tsx:23-29 | the local participant is first and no other entry has its identity; every other participant is listed |
| ParticipantSidebar.NoLocalKeepsOrder | frontend/components/video/ParticipantSidebar.tsx:23-29 | without a local participant the list is the participants in their own order |
| ParticipantSidebar.LocalFirstExactlyOnce | frontend/components/video/ParticipantSidebar.tsx:23-29 | the local identity occurs exactly once, at the front, followed by the others in order |
| ParticipantSidebar.SliceBound | frontend/components/video/ParticipantSidebar.tsx:33 | a slice bound counts from the end when negative and is clamped to the length |
| ParticipantSidebar.Slice | frontend/components/video/ParticipantSidebar.tsx:33 | the slice is the run of consecutive elements between the resolved bounds, empty when they cross |
| ParticipantSidebar.VisibleParticipants | frontend/components/video/ParticipantSidebar.tsx:32-34 | the window `slice(startIndex, startIndex + maxVisible)` of the sorted list |
| ParticipantSidebar.ShowUpArrow | frontend/components/video/ParticipantSidebar.tsx:37 | the up arrow shows when the window does not start at 0 |
| ParticipantSidebar.ShowDownArrow | frontend/components/video/ParticipantSidebar.tsx:38 | the down arrow shows when the window ends before the list does |
| ParticipantSidebar.VisibleWindow | frontend/components/video/ParticipantSidebar.tsx:32-34 | the window shows consecutive entries from `startIndex`: at most `maxVisible`, and exactly that many when they remain |
| ParticipantSidebar.DownArrowIffHiddenBelow | frontend/components/video/ParticipantSidebar.tsx:38 | the down arrow shows exactly when some participant is hidden below the window |
| ParticipantSidebar.HandleUp | frontend/components/video/ParticipantSidebar.tsx:41-43 | scrolling up never goes below 0, and moves by one while the up arrow shows |
| ParticipantSidebar.HandleDown | frontend/components/video/ParticipantSidebar.tsx:45-47 | scrolling down never moves past a full last window: it moves by one while the down arrow shows, and otherwise lands on `total - maxVisible` |
| ParticipantSidebar.ScrollingStaysInRange | frontend/components/video/ParticipantSidebar.tsx:41-47 | scrolling up, and scrolling down while its button is enabled, keep the window start in range |
| ParticipantSidebar.DownThenUp | frontend/components/video/ParticipantSidebar.tsx:41-47 | scrolling down and then up returns to the same window |
| ParticipantSidebar.FindTrackIndex | frontend/components/video/ParticipantSidebar.tsx:50-52 | the index of the first track with the identity, or none when no track has it |
| ParticipantSidebar.GetTrackForParticipant | frontend/components/video/ParticipantSidebar.tsx:50-52 | a track is found exactly when one belongs to the participant, and the found track does |
| ParticipantSidebar.FirstMatchWins | frontend/components/video/ParticipantSidebar.tsx:50-52 | of several matching tracks, the earliest is returned |
| Workspace.NameError | backend/internal/handler/workspace.go:57-68 | a name is accepted exactly when it has 2 to 100 bytes; an empty one gets "required", any other bad length the length message |
| Workspace.IsMember | backend/internal/handler/workspace.go:190-197 | the scan with `break` finds the caller exactly when some member row is the caller's |
| Workspace.ToUserResponse | backend/internal/handler/workspace.go:296-301 | the user response copies every user field |
| Workspace.ToMemberResponse | backend/internal/handler/workspace.go:308-321 | the member response copies every field, and includes the user exactly when it was found (non-zero id) |
| Workspace.ToWorkspaceResponse | backend/internal/handler/workspace.go:286-326 | the workspace response copies every field, includes the owner exactly when found, and projects every member in order |
| Workspace.ResponseListsMembers | backend/internal/handler/workspace.go:304-323 | the response lists exactly the workspace's members in order; an omitted list means no member |
| Workspace.ListResponses | backend/internal/handler/workspace.go:152-160 | one response per workspace found, in order, and `total` equals their number |
| Workspace.MembersOf | backend/internal/handler/workspace.go:174-177 | the preloaded members are exactly the workspace's member rows, in table order |
| Workspace.InvitedSelects | backend/internal/handler/workspace.go:95-105 | an id is invited exactly when it is requested, is not the owner and names an existing user |
| Workspace.CandidatesSelect | backend/internal/handler/workspace.go:258-268 | an id is tried exactly when it is requested, is not yet a member and names an existing user |
| Workspace.SucceededCandidates | backend/internal/handler/workspace.go:270-276 | only tried ids are inserted, and all of them when no insert is rejected |
| Workspace.DuplicateIdInsertedTwice | backend/internal/handler/workspace.go:250-276 | a new user requested twice in one call is inserted twice, because the existing-member map is not updated in the loop |
| Workspace.ExistingMembers | backend/internal/handler/workspace.go:250-254 | the map holds `true` for exactly the user ids of the loaded members |
| Workspace.WorkspaceHandler.constructor | backend/internal/handler/workspace.go:16-19 | the handler starts with the given users and no workspaces or member rows |
| Workspace.WorkspaceHandler.Load | backend/internal/handler/workspace.go:173-177 | the loaded workspace has its row's id, name and owner, and its members are the workspace's member rows in table order |
| Workspace.WorkspaceHandler.CreateWorkspace | backend/internal/handler/workspace.go:47-129 | 400 for a bad body or name; 500 exactly when an insert is rejected, with all tables unchanged; otherwise 201 with the reloaded workspace, whose members are the owner followed by the invited users |
| Workspace.WorkspaceHandler.CreateTransaction | backend/internal/handler/workspace.go:75-117 | a rejected insert rolls everything back; otherwise the workspace, the owner's row and one row per invited user are committed |
| Workspace.WorkspaceHandler.InviteRows | backend/internal/handler/workspace.go:94-114 | the member loop fails exactly when one of its inserts is rejected, and otherwise yields one row per invited user, in request order |
| Workspace.WorkspaceHandler.GetWorkspace | backend/internal/handler/workspace.go:164-206 | 400 for a bad id, 404 for a missing workspace, 403 unless the caller has a member row, else 200 with the projected workspace |
| Workspace.WorkspaceHandler.AddMembers | backend/internal/handler/workspace.go:209-283 | the same 400/404/403 checks with nothing changed; the reply is 200 exactly when every check passes, and then every tried id whose insert succeeds is appended and becomes a member, and `added_count` counts them |
| Workspace.WorkspaceHandler.InsertMembers | backend/internal/handler/workspace.go:256-277 | a rejected insert is skipped without undoing the others; the rows appended are those of the tried ids whose insert succeeded, in request order |
| Workspace.InsertedRowsJoin | backend/internal/handler/workspace.go:270-276 | appending the rows for some ids makes exactly those users the workspace's newest members |
| Workspace.CreatedRows | backend/internal/handler/workspace.go:85-114 | a new workspace's members are its owner followed by the invited users |
| Workspace.RowsForRows | backend/internal/handler/workspace.go:106-110 | the `i`-th inserted row joins the `i`-th id to the workspace, with no role and the insert time |
| Workspace.RowsForAddsMembers | backend/internal/handler/workspace.go:106-110 | the rows inserted for some ids name exactly those ids as the workspace's members, in order |
| Workspace.RowsForInWorkspace | backend/internal/handler/workspace.go:107-110 | every inserted row belongs to the workspace it was inserted for |
| Workspace.InvitedPrefix | backend/internal/handler/workspace.go:95-113 | helper for the rollback argument: the users invited before a rejected insert are no more than all the invited users, so the failure counts against the whole transaction |
| Workspace.Invited | backend/internal/handler/workspace.go:95-114 | the ids the creation loop inserts, in request order, never more than requested |
| Workspace.Candidates | backend/internal/handler/workspace.go:258-273 | the ids the invite loop tries to insert, in request order, never more than requested |
| Workspace.Succeeded | backend/internal/handler/workspace.go:270-276 | the tried ids whose insert is not rejected, in order, never more than were tried |
| Workspace.TransactionFails | backend/internal/handler/workspace.go:75-117 | the transaction returns an error when one of its inserts is rejected |
| Workspace.Marked | backend/internal/handler/workspace.go:250-262 | `existingMembers[memberID]`: a missing key reads as `false` |
| VoiceMonitor.GetVadStatus | frontend/app/components/voice/VoiceMonitor.tsx:10-21 | loading dominates; then a truthy error; then not listening gives idle; speaking exactly when listening and the user speaks; listening otherwise |
| VoiceMonitor.HasError | frontend/app/components/voice/VoiceMonitor.tsx:17 | `vad.errored` is truthy: an error message that is not empty |
| VoiceMonitor.StartDisabled | frontend/app/components/voice/VoiceMonitor.tsx:86 | Start is disabled while listening or loading |
| VoiceMonitor.StopDisabled | frontend/app/components/voice/VoiceMonitor.tsx:94 | Stop is disabled while not listening |
| VoiceMonitor.EarlierTestsDominate | frontend/app/components/voice/VoiceMonitor.tsx:16-20 | once an earlier test holds, the later flags cannot change the status |
| VoiceMonitor.EmptyErrorIsNotShown | frontend/app/components/voice/VoiceMonitor.tsx:17 | an empty error message is falsy and does not show the error status |
| VoiceMonitor.ControlsMatchStatus | frontend/app/components/voice/VoiceMonitor.tsx:82-97 | Start and Stop are never both enabled; only Stop while listening; only Start while idle; Start is disabled while loading |
| VoiceMonitor.ConnectionBadge | frontend/app/components/voice/VoiceMonitor.tsx:23-47 | the badge reads "Error" exactly in the error state and "Connected" exactly when connected |
| VoiceMonitor.BadgeLabelsDistinct | frontend/app/components/voice/VoiceMonitor.tsx:24-45 | the four connection states have four distinct labels |
| AudioLevelBar.Percentage | frontend/app/components/ui/AudioLevelBar.tsx:7 | the percentage lies in [0, 100]: 0 for levels at or below 0, 100 at or above 1, and the level times 100 in between |
| AudioLevelBar.IsActive | frontend/app/components/ui/AudioLevelBar.tsx:8 | the bar is active when the percentage exceeds 5 |
| AudioLevelBar.ActiveIffAboveThreshold | frontend/app/components/ui/AudioLevelBar.tsx:8 | the bar is active exactly when the level exceeds 0.05 |
| AudioLevelBar.LitDots | frontend/app/components/ui/AudioLevelBar.tsx:30-33 | exactly five dots are rendered |
| AudioLevelBar.DotLitIffLevel | frontend/app/components/ui/AudioLevelBar.tsx:30-33 | dot `i` is lit exactly when the level reaches `(i + 1) / 5` |
| AudioLevelBar.LitDotsArePrefix | frontend/app/components/ui/AudioLevelBar.tsx:31-32 | the lit dots form a prefix |
| AudioLevelBar.FullAndSilentLevels | frontend/app/components/ui/AudioLevelBar.tsx:7-33 | a level of 1 or more lights every dot and is active; a level of 0 or less lights none and is inactive |

## Left out

- Browser audio plumbing is not modelled: `getUserMedia`, creating and resuming the capture context, the script-processor and analyser wiring, and the teardown effect. The capture callback is a method that receives the frame.
- The detection library (`useMicVAD`) and its thresholds are not modelled. Its start, end and frame events are methods called from outside, and the monitor's flags are parameters.
- The audio socket's internals are not modelled: connect, disconnect, reconnection and the encoding of sent audio. Sending is the ghost `sent` sequence of chunks. Incoming messages arrive already classified as binary or text, with text already JSON-parsed (`None` when parsing fails).
- The conversion of incoming PCM bytes to samples is not modelled: the helper that does it is not part of this model, so the `play` request records the raw payload.
- Chunking.ChunkSizeNative: the threshold is the exact floor of `1600 * nativeRate / 16000`. JavaScript first rounds `nativeSampleRate / 16000` to a double, so at some non-standard rates the source's threshold is one lower. At 37800 Hz, for example, the source gets 3779 and the model 3780.
- VoiceActivity.VoiceSession.OnControlMessage: in a `ready` message, a `session_id` that is a number, a boolean or an object throws inside the `try`, and the source then logs nothing. A JSON `null` message also throws, at `.status`. The model cannot express these inputs. A `null` session id stops at `?.` and logs like a missing id, which the model expresses as `None`. An array session id, which `slice` accepts and logs joined by commas, is not modelled.
- VoiceActivity.SessionPrefix: `slice(0, 8)` counts UTF-16 code units and can split a surrogate pair. The model counts Unicode scalar values.
- Log messages are structured data, not the source's display text. For example, `ChunkSent` holds the chunk number and the sample count, while the source logs the chunk's duration in milliseconds, rounded by `toFixed(0)`.
- Resampler.Resampled: the read position `i * ratio` is computed with exact rationals, where JavaScript rounds to double. Sample values are reals, so float rounding and NaN are not modelled.
- AudioLevelBar.Percentage: levels are reals. The NaN level, which passes through `Math.max` and `Math.min` unclamped, is not modelled.
- The random debug sampling in the capture callback and console logging are not modelled. Neither are log entry ids, which are random, nor their timestamps, which are clock readings.
- VoiceActivity.VoiceSession.OnTranscript: the five-second timer is not modelled; it is a handle number. Only the replacement of the pending timer and the effect of its firing are modelled.
- The value of `SPEECH_LOG_MAX_ENTRIES` is not modelled: the constants file is not part of this model, so the cap is a parameter of the session. `AUDIO_SAMPLE_RATE` is 16000, which is what the hook's own chunk-size comment implies.
- The noise suppressor and the DSP stage are not modelled. They are functions that return a processed block or fail.
- AudioPlayer.AudioPlayerService.Play: each call is one atomic step, so the awaits at `audioPlayer.ts` lines 42, 50 and 59 are not modelled. The options are read once, when the call starts. Not captured: a `setOptions` made during an await that changes the later DSP decision; two overlapping calls starting their buffers out of call order; a `close` interleaving with a `play`. The same holds for `PlayMp3` and `Close`. When the processed block is empty, `createBuffer` throws and the promise rejects; the model instead returns normally and starts nothing.
- AudioPlayer.MergeOptions: a field passed explicitly as `undefined` is not modelled. The spread would store `undefined`, which is falsy and turns the stage off. The model has only "supplied with a boolean" and "absent", and absent keeps the current value.
- MP3 decoding is not modelled: it is the platform's, so the decoded buffer, or its failure, is a parameter. Starting a source is recorded as an append to the context's started buffers; no sound is rendered.
- `noiseSuppress.destroy` and `audioProcessor.close` are not modelled; they are calls into services that are not part of this model.
- Workspace.WorkspaceHandler.GetWorkspace: database errors other than "not found" (the 500 reply of `GetWorkspace`) are not modelled. In `AddMembers` every lookup failure is a 404, as in the code.
- Fiber and gorm are not modelled: claims are a caller id, the body and path parameter arrive already parsed or as `None`, and preloading is the `Load` function. A rolled-back creation leaves the next workspace id unchanged; a real database sequence would usually still use up the id, so the id in the next 201 reply can differ.
- `sanitizeString` is not modelled; it is a parameter, since it is defined elsewhere.
- Member row ids are modelled as table positions plus one. Timestamps are modelled as the `now` string passed in. The role id of a new row is absent.
- The query of `GetMyWorkspaces` is not modelled: its join, its `created_at DESC` order and the duplicate rows the join can produce. Only the projection loop and `total` are modelled, over the workspaces found.
- `video_handler.go` and the pure rendering files (status indicator, speech log list, button, page, the sidebar's video renderer) are not modelled. They hold no behaviour beyond markup and class strings.
- Workspace.WorkspaceHandler.CreateWorkspace: gorm inserts integer ids as `int64`, but the model uses unbounded integers, so id overflow is not modelled.
