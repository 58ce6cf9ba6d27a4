/** The playback service: classifies payloads by their magic bytes, keeps the
    processing options, owns one lazily created output context and runs the
    two optional processing stages before rendering a buffer.

    The output context is the platform's; it is modelled by the state the
    service relies on (its rate, whether it is suspended or closed, and the
    buffers started on it). The noise suppressor and the DSP chain are
    collaborators whose code is not part of this model: each is a parameter
    that either returns processed samples or fails (`None`). */
module AudioPlayer {
  import opened Wrappers
  import opened Constants
  import TypedArrays

  // ---------------------------------------------------------------------
  // Payload classification
  // ---------------------------------------------------------------------

  /** `AudioPlayerService.isMp3`: an ID3v2 tag header ("ID3", section 3.1 of
      the ID3v2.4 informal standard) or an MPEG audio frame sync (eleven set
      bits, section 2.4.1.3 of ISO/IEC 11172-3). The mask test on the second
      byte holds exactly for the bytes 0xE0 to 0xFF. */
  function IsMp3(data: seq<bv8>): (r: bool)
    ensures |data| < 3 ==> !r
    ensures r <==> |data| >= 3 &&
                   ((data[0] == 0x49 && data[1] == 0x44 && data[2] == 0x33) ||
                    (data[0] == 0xFF && data[1] >= 0xE0))
  {
    if |data| < 3 then false
    else if data[0] == 0x49 && data[1] == 0x44 && data[2] == 0x33 then true
    else if data[0] == 0xFF && data[1] & 0xE0 == 0xE0 then true
    else false
  }

  /** The classification depends only on the first three bytes. */
  lemma IsMp3ReadsThreeBytes(a: seq<bv8>, b: seq<bv8>)
    requires |a| >= 3 && |b| >= 3 && a[..3] == b[..3]
    ensures IsMp3(a) == IsMp3(b)
  {
    assert a[0] == a[..3][0] && a[1] == a[..3][1] && a[2] == a[..3][2];
    assert b[0] == b[..3][0] && b[1] == b[..3][1] && b[2] == b[..3][2];
  }

  /** The payloads named by the wire format: an ID3 header and an 0xFF 0xFB
      frame sync are compressed audio, 0x00 0x01 0x02 is raw PCM, and a
      two-byte frame sync is too short to be classified as compressed. */
  lemma IsMp3Examples(tail: seq<bv8>)
    ensures IsMp3([0x49, 0x44, 0x33] + tail)
    ensures IsMp3([0xFF, 0xFB, 0x90] + tail)
    ensures !IsMp3([0x00, 0x01, 0x02])
    ensures !IsMp3([0xFF, 0xFB])
  {
  }

  // ---------------------------------------------------------------------
  // Processing options
  // ---------------------------------------------------------------------

  datatype ProcessingOptions = ProcessingOptions(noiseSuppressionEnabled: bool, dspEnabled: bool)

  /** `Partial<AudioProcessingOptions>`: a field is either supplied or absent. */
  datatype PartialOptions = PartialOptions(noiseSuppressionEnabled: Option<bool>, dspEnabled: Option<bool>)

  /** Both stages are on until the caller says otherwise. */
  const DefaultOptions: ProcessingOptions := ProcessingOptions(true, true)

  /** `{ ...current, ...update }`: the supplied fields win, the others stay. */
  function MergeOptions(current: ProcessingOptions, update: PartialOptions): (r: ProcessingOptions)
    ensures update.noiseSuppressionEnabled.Some? ==> r.noiseSuppressionEnabled == update.noiseSuppressionEnabled.value
    ensures update.noiseSuppressionEnabled.None? ==> r.noiseSuppressionEnabled == current.noiseSuppressionEnabled
    ensures update.dspEnabled.Some? ==> r.dspEnabled == update.dspEnabled.value
    ensures update.dspEnabled.None? ==> r.dspEnabled == current.dspEnabled
  {
    ProcessingOptions(
      if update.noiseSuppressionEnabled.Some? then update.noiseSuppressionEnabled.value else current.noiseSuppressionEnabled,
      if update.dspEnabled.Some? then update.dspEnabled.value else current.dspEnabled)
  }

  /** An empty update changes nothing, applying an update twice is the same
      as applying it once, and a full update forgets the old options. */
  lemma MergeOptionsLaws(current: ProcessingOptions, update: PartialOptions)
    ensures MergeOptions(current, PartialOptions(None, None)) == current
    ensures MergeOptions(MergeOptions(current, update), update) == MergeOptions(current, update)
    ensures update.noiseSuppressionEnabled.Some? && update.dspEnabled.Some? ==>
              MergeOptions(current, update) == ProcessingOptions(update.noiseSuppressionEnabled.value, update.dspEnabled.value)
  {
  }

  // ---------------------------------------------------------------------
  // Processing stages
  // ---------------------------------------------------------------------

  /** A processing stage: processed samples, or `None` when it throws. */
  type Stage = seq<real> -> Option<seq<real>>

  /** One guarded stage of `play`: a disabled stage, or one that throws,
      leaves the data as it was before the stage. */
  function ApplyStage(enabled: bool, stage: Stage, data: seq<real>): (r: seq<real>)
    ensures !enabled || stage(data).None? ==> r == data
    ensures enabled && stage(data).Some? ==> r == stage(data).value
  {
    if enabled then
      match stage(data)
      case Some(processed) => processed
      case None => data
    else data
  }

  /** `processedData` after both stages: noise suppression, then DSP. */
  function ProcessedSamples(audioData: seq<real>, options: ProcessingOptions, noiseSuppress: Stage, dsp: Stage): seq<real>
  {
    ApplyStage(options.dspEnabled, dsp, ApplyStage(options.noiseSuppressionEnabled, noiseSuppress, audioData))
  }

  /** With both stages off, or with each enabled stage failing, playback
      uses the input unchanged. */
  lemma UnprocessedFallback(audioData: seq<real>, options: ProcessingOptions, noiseSuppress: Stage, dsp: Stage)
    requires !options.noiseSuppressionEnabled || noiseSuppress(audioData).None?
    requires !options.dspEnabled || dsp(audioData).None?
    ensures ProcessedSamples(audioData, options, noiseSuppress, dsp) == audioData
  {
    assert ApplyStage(options.noiseSuppressionEnabled, noiseSuppress, audioData) == audioData;
  }

  // ---------------------------------------------------------------------
  // The output context and the service
  // ---------------------------------------------------------------------

  /** An AudioBuffer: channel count, length in frames, rate, first channel. */
  datatype AudioBufferData = AudioBufferData(numberOfChannels: nat, length: nat, sampleRate: nat, channelData: seq<real>)

  datatype ContextState = Suspended | Running | Closed

  /** The platform's output context, reduced to what playback relies on. */
  class AudioContext {
    const sampleRate: nat
    var state: ContextState
    /** The buffers whose source nodes were started, in order. */
    var started: seq<AudioBufferData>

    /** The platform decides whether a new context starts suspended. */
    constructor (sampleRate: nat, initialState: ContextState)
      requires initialState != Closed
      ensures this.sampleRate == sampleRate && state == initialState && started == []
    {
      this.sampleRate := sampleRate;
      state := initialState;
      started := [];
    }

    method Resume()
      requires state != Closed
      modifies this`state
      ensures state == Running
    {
      state := Running;
    }

    method Close()
      modifies this`state
      ensures state == Closed
    {
      state := Closed;
    }

    /** `createBufferSource()`, `source.buffer = buffer`, `source.start()`. */
    method Start(buffer: AudioBufferData)
      modifies this`started
      ensures started == old(started) + [buffer]
    {
      started := started + [buffer];
    }
  }

  /** `createBuffer(1, data.length, AUDIO_SAMPLE_RATE)` followed by
      `getChannelData(0).set(data)`. The platform refuses a buffer of length
      0, so the caller checks that first. */
  method CreateFilledBuffer(data: seq<real>) returns (buffer: AudioBufferData)
    requires |data| > 0
    ensures buffer.numberOfChannels == 1 && buffer.sampleRate == AudioSampleRate
    ensures buffer.length == |data| && buffer.channelData == data
  {
    var channelData := new real[|data|](_ => 0.0);
    TypedArrays.Set(channelData, data, 0);
    assert channelData[..] == channelData[0..|data|];
    buffer := AudioBufferData(1, |data|, AudioSampleRate, channelData[..]);
  }

  class AudioPlayerService {
    var audioContext: AudioContext?
    var options: ProcessingOptions

    /** A context the service holds runs at the target rate and is open. */
    ghost predicate Valid()
      reads this, audioContext
    {
      audioContext != null ==> audioContext.sampleRate == AudioSampleRate && audioContext.state != Closed
    }

    constructor ()
      ensures Valid() && audioContext == null && options == DefaultOptions
    {
      audioContext := null;
      options := DefaultOptions;
    }

    /** `getAudioContext`: creates the context on first use, then always
        returns the same one. */
    method GetAudioContext(initialState: ContextState) returns (ctx: AudioContext)
      requires Valid() && initialState != Closed
      modifies this`audioContext
      ensures Valid() && audioContext == ctx
      ensures old(audioContext) != null ==> ctx == old(audioContext)
      ensures old(audioContext) == null ==> fresh(ctx) && ctx.state == initialState && ctx.started == []
    {
      if audioContext == null {
        audioContext := new AudioContext(AudioSampleRate, initialState);
      }
      ctx := audioContext;
    }

    /** `setOptions`: a partial update of the options. */
    method SetOptions(update: PartialOptions)
      modifies this`options
      ensures options == MergeOptions(old(options), update)
    {
      options := MergeOptions(options, update);
    }

    /** `getOptions`: a copy of the options. Options are a value here, so the
        copy cannot alias the service's state. */
    method GetOptions() returns (copy: ProcessingOptions)
      ensures copy == options
    {
      copy := options;
    }

    /** `play`: resume the context if it is suspended, run the enabled stages
        (each falling back to its input when it fails), then render a
        one-channel buffer at the target rate holding the processed samples.
        A processed block of length 0 makes `createBuffer` throw, so the
        returned promise rejects and nothing is started. */
    method Play(audioData: seq<real>, noiseSuppress: Stage, dsp: Stage, initialState: ContextState)
      requires Valid() && initialState != Closed
      modifies this`audioContext, audioContext
      ensures Valid() && audioContext != null && audioContext.state == Running
      ensures old(audioContext) != null ==> audioContext == old(audioContext)
      ensures old(audioContext) == null ==> fresh(audioContext)
      ensures var p := ProcessedSamples(audioData, options, noiseSuppress, dsp);
              audioContext.started ==
                (if old(audioContext) == null then [] else old(audioContext.started)) +
                (if |p| == 0 then [] else [AudioBufferData(1, |p|, AudioSampleRate, p)])
    {
      var ctx := GetAudioContext(initialState);
      if ctx.state == Suspended {
        ctx.Resume();
      }

      var processedData := audioData;

      if options.noiseSuppressionEnabled {
        match noiseSuppress(processedData)
        case Some(denoised) => processedData := denoised;
        case None =>  // "RNNoise processing failed, using original audio"
      }

      if options.dspEnabled {
        match dsp(processedData)
        case Some(filtered) => processedData := filtered;
        case None =>  // "DSP processing failed"
      }

      if |processedData| == 0 {
        return;
      }
      var buffer := CreateFilledBuffer(processedData);
      ctx.Start(buffer);
    }

    /** `playMp3`: resume the context if it is suspended, then start the
        decoded buffer. Decoding is the platform's; a failed decode (`None`)
        is logged and nothing is started. */
    method PlayMp3(mp3Data: seq<bv8>, decoded: Option<AudioBufferData>, initialState: ContextState)
      requires Valid() && initialState != Closed
      modifies this`audioContext, audioContext
      ensures Valid() && audioContext != null && audioContext.state == Running
      ensures old(audioContext) != null ==> audioContext == old(audioContext)
      ensures old(audioContext) == null ==> fresh(audioContext)
      ensures audioContext.started ==
                (if old(audioContext) == null then [] else old(audioContext.started)) +
                (if decoded.Some? then [decoded.value] else [])
    {
      var ctx := GetAudioContext(initialState);
      if ctx.state == Suspended {
        ctx.Resume();
      }
      if decoded.Some? {
        ctx.Start(decoded.value);
      }
    }

    /** `close`: closes the context, if any, and forgets it, so that the next
        playback creates a new one. */
    method Close()
      requires Valid()
      modifies this`audioContext, audioContext
      ensures Valid() && audioContext == null
      ensures old(audioContext) != null ==> old(audioContext).state == Closed
    {
      if audioContext != null {
        audioContext.Close();
        audioContext := null;
      }
    }
  }
}
