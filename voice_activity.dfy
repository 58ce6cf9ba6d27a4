/** The session state of the capture hook: connection state, speech log,
    subtitle and its clear timer, the speaking flag fired by the voice
    activity detector, and the capture callback that gates, accumulates,
    concatenates, resamples and sends 100 ms chunks.

    The hook's refs and state cells become the fields of one object; each
    callback of the hook becomes a method. The microphone, the audio graph and
    the detector are the platform's: their callbacks are the methods'
    callers. The chunks handed to the socket are recorded in the ghost field
    `sent`; the payloads handed to the playback service are recorded in
    `playback`. */
module VoiceActivity {
  import opened Wrappers
  import opened SpeechLog
  import opened AudioSocket
  import Chunking
  import Resampler
  import AudioPlayer

  /** A parsed JSON text message: its `status` and `session_id` fields when
      they are strings, `None` when missing or `null`. */
  datatype ControlMessage = ControlMessage(status: Option<string>, sessionId: Option<string>)

  /** A socket message: an ArrayBuffer, or a text frame whose JSON parse
      either yields a control object or throws (`None`). */
  datatype ServerMessage = Binary(payload: seq<bv8>) | Text(json: Option<ControlMessage>)

  /** What the session hands to the playback service: raw 16-bit PCM (turned
      into float samples by the conversion helpers before `play`) or a
      compressed payload for `playMp3`. */
  datatype PlaybackRequest = PlayPcm(payload: seq<bv8>) | PlayMp3(payload: seq<bv8>)

  /** The log entry a connection change adds, if any. */
  function ConnectionLogEntry(state: ConnectionState): (r: Option<LogEntry>)
    ensures r.None? <==> state == Connecting
    ensures r.Some? ==> (r.value.kind == EntryKind.Error <==> state == ConnectionState.Error)
    ensures r.Some? ==> (r.value.kind == Info <==> state != ConnectionState.Error)
  {
    match state
    case Connected => Some(LogEntry(Info, ServerConnected))
    case Disconnected => Some(LogEntry(Info, ServerDisconnected))
    case Error => Some(LogEntry(EntryKind.Error, ServerError))
    case Connecting => None
  }

  /** `session_id?.slice(0, 8)`: the first eight characters, if present. */
  function SessionPrefix(sessionId: Option<string>): (r: Option<string>)
    ensures r.None? <==> sessionId.None?
    ensures r.Some? ==> |r.value| == (if |sessionId.value| <= 8 then |sessionId.value| else 8) && r.value <= sessionId.value
    ensures r.Some? && |sessionId.value| <= 8 ==> r.value == sessionId.value
  {
    match sessionId
    case None => None
    case Some(id) => Some(if |id| <= 8 then id else id[..8])
  }

  class VoiceSession {
    /** SPEECH_LOG_MAX_ENTRIES (its value is not part of this model). */
    const maxEntries: nat
    /** The native rate of the capture context. */
    const nativeRate: nat
    /** CHUNK_SIZE_NATIVE. */
    const chunkSizeNative: nat := Chunking.ChunkSizeNative(nativeRate)

    var speechLog: seq<LogEntry>
    var audioLevel: real
    var connectionState: ConnectionState
    /** isConnectedRef */
    var isConnected: bool
    var subtitle: string
    /** subtitleTimeoutRef: the handle of the last clear timer scheduled. */
    var subtitleTimeout: Option<nat>
    /** Handles issued by setTimeout so far. */
    var timersScheduled: nat
    /** The clear timer scheduled and neither cancelled nor fired yet. */
    ghost var pendingTimer: Option<nat>
    /** isSpeakingRef */
    var isSpeaking: bool
    /** chunkCountRef */
    var chunkCount: nat
    /** The native-rate frames buffered since the last chunk. */
    var audioBuffer: seq<seq<real>>
    /** Every chunk handed to `audioSocket.sendAudio`, in order. */
    ghost var sent: seq<seq<real>>
    /** `|sent|` at the last speech onset. */
    ghost var segmentStart: nat
    /** Every payload handed to the playback service, in order. */
    var playback: seq<PlaybackRequest>

    /** Between callbacks: the buffer holds less than one chunk, the counter
        counts the chunks sent since the last onset, the log is within its
        bound, `isConnected` mirrors the connection state and at most one
        clear timer is pending, the one in the ref. */
    ghost predicate Valid()
      reads this
    {
      && nativeRate > 0
      && (Chunking.TotalLength(audioBuffer) < chunkSizeNative || audioBuffer == [])
      && segmentStart + chunkCount == |sent|
      && (maxEntries > 0 ==> |speechLog| <= maxEntries)
      && isConnected == (connectionState == Connected)
      && (pendingTimer.Some? ==> pendingTimer == subtitleTimeout)
    }

    /** The hook's initial state, once the capture context reports its rate. */
    constructor (nativeSampleRate: nat, maxLogEntries: nat)
      requires nativeSampleRate > 0
      ensures Valid()
      ensures nativeRate == nativeSampleRate && maxEntries == maxLogEntries
      ensures speechLog == [] && audioLevel == 0.0 && subtitle == ""
      ensures connectionState == Disconnected && !isConnected && !isSpeaking
      ensures chunkCount == 0 && audioBuffer == [] && sent == [] && playback == []
      ensures subtitleTimeout == None && pendingTimer == None
    {
      maxEntries := maxLogEntries;
      nativeRate := nativeSampleRate;
      speechLog := [];
      audioLevel := 0.0;
      connectionState := Disconnected;
      isConnected := false;
      subtitle := "";
      subtitleTimeout := None;
      timersScheduled := 0;
      pendingTimer := None;
      isSpeaking := false;
      chunkCount := 0;
      audioBuffer := [];
      sent := [];
      segmentStart := 0;
      playback := [];
    }

    /** `addLogEntry`: append, then keep the last `maxEntries`. */
    method AddLogEntry(kind: EntryKind, message: Message)
      modifies this`speechLog
      ensures speechLog == Append(old(speechLog), LogEntry(kind, message), maxEntries)
    {
      speechLog := KeepLast(speechLog + [LogEntry(kind, message)], maxEntries);
    }

    /** `clearLog` */
    method ClearLog()
      requires Valid()
      modifies this`speechLog
      ensures Valid() && speechLog == []
    {
      speechLog := [];
    }

    /** `onConnectionChange`: record the state, derive `isConnected`, and log
        every state but `connecting`. */
    method OnConnectionChange(state: ConnectionState)
      requires Valid()
      modifies this`connectionState, this`isConnected, this`speechLog
      ensures Valid()
      ensures connectionState == state && (isConnected <==> state == Connected)
      ensures var entry := ConnectionLogEntry(state);
              speechLog == if entry.Some? then Append(old(speechLog), entry.value, maxEntries) else old(speechLog)
    {
      connectionState := state;
      isConnected := state == Connected;
      var entry := ConnectionLogEntry(state);
      if entry.Some? {
        AddLogEntry(entry.value.kind, entry.value.message);
      }
    }

    /** `onMessage`: binary payloads go to playback, text frames are control
        messages. */
    method OnMessage(message: ServerMessage)
      requires Valid()
      modifies this`speechLog, this`playback
      ensures Valid()
      ensures message.Binary? ==> AudioMessageEffect(message.payload, old(speechLog), old(playback))
      ensures message.Text? ==> ControlMessageEffect(message.json, old(speechLog), old(playback))
    {
      match message
      case Binary(payload) => OnAudioMessage(payload);
      case Text(json) => OnControlMessage(json);
    }

    /** The new log and playback queue after a binary message: compressed
        audio is logged and goes to `playMp3`; any other payload goes to
        `play` unlogged. */
    ghost predicate AudioMessageEffect(payload: seq<bv8>, log0: seq<LogEntry>, playback0: seq<PlaybackRequest>)
      reads this
    {
      if AudioPlayer.IsMp3(payload) then
        speechLog == Append(log0, LogEntry(End, TtsPlayback), maxEntries) &&
        playback == playback0 + [PlayMp3(payload)]
      else
        speechLog == log0 && playback == playback0 + [PlayPcm(payload)]
    }

    /** The new log and playback queue after a text message: a JSON
        `status: "ready"` message logs the session id's prefix; anything
        else, unparsable text included, changes nothing. */
    ghost predicate ControlMessageEffect(json: Option<ControlMessage>, log0: seq<LogEntry>, playback0: seq<PlaybackRequest>)
      reads this
    {
      playback == playback0 &&
      if json.Some? && json.value.status == Some("ready") then
        speechLog == Append(log0, LogEntry(Info, SessionReady(SessionPrefix(json.value.sessionId))), maxEntries)
      else
        speechLog == log0
    }

    /** The binary branch of `onMessage`. */
    method OnAudioMessage(payload: seq<bv8>)
      requires Valid()
      modifies this`speechLog, this`playback
      ensures Valid() && AudioMessageEffect(payload, old(speechLog), old(playback))
    {
      if AudioPlayer.IsMp3(payload) {
        AddLogEntry(End, TtsPlayback);
        playback := playback + [PlayMp3(payload)];
      } else {
        playback := playback + [PlayPcm(payload)];
      }
    }

    /** The text branch of `onMessage`. */
    method OnControlMessage(json: Option<ControlMessage>)
      requires Valid()
      modifies this`speechLog
      ensures Valid() && ControlMessageEffect(json, old(speechLog), playback)
    {
      if json.Some? && json.value.status == Some("ready") {
        AddLogEntry(Info, SessionReady(SessionPrefix(json.value.sessionId)));
      }
    }

    /** `onTranscript`: show the text, log it, and replace any pending clear
        timer by a new one. */
    method OnTranscript(text: string)
      requires Valid()
      modifies this`subtitle, this`speechLog, this`subtitleTimeout, this`timersScheduled, this`pendingTimer
      ensures Valid()
      ensures subtitle == text
      ensures speechLog == Append(old(speechLog), LogEntry(Info, TranscriptText(text)), maxEntries)
      ensures subtitleTimeout == Some(old(timersScheduled)) && timersScheduled == old(timersScheduled) + 1
      ensures pendingTimer == Some(old(timersScheduled))
    {
      subtitle := text;
      AddLogEntry(Info, TranscriptText(text));
      subtitleTimeout := Some(timersScheduled);
      pendingTimer := subtitleTimeout;
      timersScheduled := timersScheduled + 1;
    }

    /** The pending clear timer fires: the subtitle is cleared. */
    method SubtitleTimeoutFired(handle: nat)
      requires Valid() && pendingTimer == Some(handle)
      modifies this`subtitle, this`pendingTimer
      ensures Valid() && subtitle == "" && pendingTimer == None
    {
      subtitle := "";
      pendingTimer := None;
    }

    /** The unmount cleanup: cancel the pending clear timer, if any. */
    method CancelSubtitleTimer()
      requires Valid()
      modifies this`pendingTimer
      ensures Valid() && pendingTimer == None
    {
      pendingTimer := None;
    }

    /** The capture callback. A frame is dropped unless the detector reports
        speech and the socket is connected. Otherwise it is buffered; once
        the buffered total reaches CHUNK_SIZE_NATIVE the frames are
        concatenated in order, resampled to 16 kHz, counted, logged and sent,
        and the buffer is cleared. */
    method OnAudioProcess(frame: seq<real>)
      requires Valid()
      modifies this`audioBuffer, this`chunkCount, this`sent, this`speechLog
      ensures Valid()
      ensures !(isSpeaking && isConnected) ==>
                audioBuffer == old(audioBuffer) && chunkCount == old(chunkCount) &&
                sent == old(sent) && speechLog == old(speechLog)
      ensures isSpeaking && isConnected ==>
                var pushed := old(audioBuffer) + [frame];
                if Chunking.TotalLength(pushed) >= chunkSizeNative then
                  var chunk := Resampler.Resampled(Chunking.Flatten(pushed), nativeRate);
                  && audioBuffer == []
                  && chunkCount == old(chunkCount) + 1
                  && sent == old(sent) + [chunk]
                  && speechLog == Append(old(speechLog), LogEntry(Info, ChunkSent(chunkCount, |chunk|)), maxEntries)
                else
                  && audioBuffer == pushed
                  && chunkCount == old(chunkCount)
                  && sent == old(sent)
                  && speechLog == old(speechLog)
    {
      if !isSpeaking || !isConnected {
        return;
      }

      audioBuffer := audioBuffer + [frame];

      var totalSamples := Chunking.TotalLength(audioBuffer);
      if totalSamples >= chunkSizeNative {
        EmitChunk();
      }
    }

    /** The emitting branch of the capture callback: count the chunk,
        concatenate the buffered frames, resample them to 16 kHz, log and
        send the result, clear the buffer. */
    method EmitChunk()
      requires nativeRate > 0
      modifies this`audioBuffer, this`chunkCount, this`sent, this`speechLog
      ensures var chunk := Resampler.Resampled(Chunking.Flatten(old(audioBuffer)), nativeRate);
              && audioBuffer == []
              && chunkCount == old(chunkCount) + 1
              && sent == old(sent) + [chunk]
              && speechLog == Append(old(speechLog), LogEntry(Info, ChunkSent(chunkCount, |chunk|)), maxEntries)
    {
      chunkCount := chunkCount + 1;
      var chunkNum := chunkCount;

      var nativeChunk := Chunking.ConcatFrames(audioBuffer);
      var resampled := Resampler.ResampleTo16k(nativeChunk, nativeRate);

      AddLogEntry(Info, ChunkSent(chunkNum, |resampled|));

      sent := sent + [resampled];
      audioBuffer := [];
    }

    /** `onSpeechStart`: reset the chunk counter, log the onset, open the
        gate. */
    method OnSpeechStart()
      requires Valid()
      modifies this`chunkCount, this`speechLog, this`isSpeaking, this`segmentStart
      ensures Valid()
      ensures chunkCount == 0 && isSpeaking && segmentStart == |sent|
      ensures speechLog == Append(old(speechLog), LogEntry(Start, SpeechStarted), maxEntries)
    {
      chunkCount := 0;
      segmentStart := |sent|;
      AddLogEntry(Start, SpeechStarted);
      isSpeaking := true;
    }

    /** `onSpeechEnd`: log how many chunks the segment sent and close the
        gate. The buffered partial chunk is not flushed: it stays in
        `audioBuffer` and is sent at the head of the next segment's first
        chunk. */
    method OnSpeechEnd()
      requires Valid()
      modifies this`speechLog, this`isSpeaking
      ensures Valid() && !isSpeaking
      ensures speechLog == Append(old(speechLog), LogEntry(End, SpeechEnded(chunkCount)), maxEntries)
      ensures chunkCount == |sent| - segmentStart
      ensures audioBuffer == old(audioBuffer) && sent == old(sent)
    {
      AddLogEntry(End, SpeechEnded(chunkCount));
      isSpeaking := false;
    }

    /** `onFrameProcessed`: the detector's speech probability becomes the
        audio level. */
    method OnFrameProcessed(isSpeech: real)
      requires Valid()
      modifies this`audioLevel
      ensures Valid() && audioLevel == isSpeech
    {
      audioLevel := isSpeech;
    }

    /** The catch of the streaming setup: the failure is logged as an error. */
    method OnSetupFailed(cause: string)
      requires Valid()
      modifies this`speechLog
      ensures Valid()
      ensures speechLog == Append(old(speechLog), LogEntry(EntryKind.Error, AudioSetupFailed(cause)), maxEntries)
    {
      AddLogEntry(EntryKind.Error, AudioSetupFailed(cause));
    }
  }

  /** At 16 kHz a 1024-sample frame is less than a chunk: a segment that
      ends after one frame sends nothing and keeps the frame buffered. */
  method SpeechEndKeepsPartialChunk(frame: seq<real>) returns (session: VoiceSession)
    requires |frame| == 1024
    ensures fresh(session) && session.Valid() && session.nativeRate == 16000
    ensures session.isConnected && !session.isSpeaking
    ensures session.audioBuffer == [frame] && session.sent == []
    ensures |session.speechLog| > 0 && session.speechLog[|session.speechLog| - 1] == LogEntry(End, SpeechEnded(0))
  {
    session := new VoiceSession(16000, 50);
    session.OnConnectionChange(Connected);
    session.OnSpeechStart();
    assert [] + [frame] == [frame];
    Chunking.FlattenPair(frame, frame);
    session.OnAudioProcess(frame);
    session.OnSpeechEnd();
  }

  /** The frame kept at the end of one segment leads the first chunk of the
      next: no sample is lost, none is reordered. */
  method PartialChunkLeadsNextSegment(session: VoiceSession, frame: seq<real>, next: seq<real>)
    requires session.Valid() && session.nativeRate == 16000 && session.isConnected
    requires |frame| == |next| == 1024 && session.audioBuffer == [frame]
    modifies session
    ensures session.sent == old(session.sent) + [frame + next]
    ensures session.audioBuffer == [] && session.chunkCount == 1
  {
    session.OnSpeechStart();
    assert [frame] + [next] == [frame, next];
    Chunking.FlattenPair(frame, next);
    Resampler.SameRateIsIdentity(frame + next);
    session.OnAudioProcess(next);
  }

  /** The two segments one after the other: one chunk is counted, nothing
      stays buffered, and the only chunk sent is the first segment's frame
      followed by the second's. */
  method CarryOverScenario(frame: seq<real>, next: seq<real>)
    returns (chunkCount: nat, buffered: seq<seq<real>>, ghost sent: seq<seq<real>>)
    requires |frame| == |next| == 1024
    ensures chunkCount == 1 && buffered == []
    ensures sent == [frame + next]
  {
    var session := SpeechEndKeepsPartialChunk(frame);
    PartialChunkLeadsNextSegment(session, frame, next);
    chunkCount, buffered, sent := session.chunkCount, session.audioBuffer, session.sent;
  }

  /** No frame is buffered or sent while the gate is closed: neither when
      speech has started but the transport is not connected, nor when the
      transport is connected but speech has ended. */
  method ClosedGateScenario(frame: seq<real>) returns (buffered: seq<seq<real>>, ghost sent: seq<seq<real>>)
    ensures buffered == [] && sent == []
  {
    var session := new VoiceSession(44100, 50);
    session.OnSpeechStart();
    session.OnAudioProcess(frame);
    assert session.audioBuffer == [] && session.sent == [];
    session.OnConnectionChange(Connected);
    session.OnSpeechEnd();
    session.OnAudioProcess(frame);
    buffered, sent := session.audioBuffer, session.sent;
  }
}
