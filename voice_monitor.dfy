/** The status logic of the voice monitor panel: the status shown for the
    voice-activity detector, the badge shown for the transport's connection
    state, and when the Start and Stop buttons are disabled. The detector's
    flags come from the detection library and are taken as given. */
module VoiceMonitor {
  import opened Wrappers
  import AudioSocket

  /** The status shown by the status indicator. */
  datatype VadStatus = Idle | Listening | Speaking | Loading | Errored

  /** The detector flags the panel reads. `errored` is `string | false`: no
      error is `None`, an error is its message. */
  datatype VadFlags = VadFlags(loading: bool, errored: Option<string>, listening: bool, userSpeaking: bool)

  /** JavaScript truthiness of `errored`: `false` and the empty string are
      falsy, every other string is truthy. */
  predicate HasError(vad: VadFlags)
  {
    vad.errored.Some? && |vad.errored.value| > 0
  }

  /** `getVADStatus`: a chain of tests, the first that holds decides. */
  function GetVadStatus(vad: VadFlags): (r: VadStatus)
    ensures r == Loading <==> vad.loading
    ensures r == Errored <==> !vad.loading && HasError(vad)
    ensures r == Idle <==> !vad.loading && !HasError(vad) && !vad.listening
    ensures r == Speaking <==> !vad.loading && !HasError(vad) && vad.listening && vad.userSpeaking
    ensures r == Listening <==> !vad.loading && !HasError(vad) && vad.listening && !vad.userSpeaking
  {
    if vad.loading then Loading
    else if HasError(vad) then Errored
    else if !vad.listening then Idle
    else if vad.userSpeaking then Speaking
    else Listening
  }

  /** Each test masks every later one: two flag sets that agree up to the
      first test that holds get the same status, whatever the rest says. */
  lemma EarlierTestsDominate(a: VadFlags, b: VadFlags)
    ensures a.loading && b.loading ==> GetVadStatus(a) == GetVadStatus(b)
    ensures !a.loading && !b.loading && HasError(a) && HasError(b) ==> GetVadStatus(a) == GetVadStatus(b)
    ensures a.loading == b.loading && HasError(a) == HasError(b) && !a.listening && !b.listening ==>
              GetVadStatus(a) == GetVadStatus(b)
  {
  }

  /** An empty error message is falsy, so it does not show the error status. */
  lemma EmptyErrorIsNotShown(loading: bool, listening: bool, userSpeaking: bool)
    ensures GetVadStatus(VadFlags(loading, Some(""), listening, userSpeaking)) ==
            GetVadStatus(VadFlags(loading, None, listening, userSpeaking))
  {
  }

  /** The Start button: disabled while listening or loading. */
  predicate StartDisabled(vad: VadFlags)
  {
    vad.listening || vad.loading
  }

  /** The Stop button: disabled while not listening. */
  predicate StopDisabled(vad: VadFlags)
  {
    !vad.listening
  }

  /** The buttons agree with the status shown: at most one of them is
      enabled; while the detector listens (speaking or not) only Stop is;
      while it is idle only Start is; while it loads Start is disabled. */
  lemma ControlsMatchStatus(vad: VadFlags)
    ensures StartDisabled(vad) || StopDisabled(vad)
    ensures GetVadStatus(vad) in {Speaking, Listening} ==> StartDisabled(vad) && !StopDisabled(vad)
    ensures GetVadStatus(vad) == Idle ==> !StartDisabled(vad) && StopDisabled(vad)
    ensures GetVadStatus(vad) == Loading ==> StartDisabled(vad)
  {
  }

  /** What the connection badge shows: dot style, text style and label. */
  datatype Badge = Badge(dot: string, text: string, labelText: string)

  /** The `ConnectionBadge` configuration, one entry per connection state. */
  function ConnectionBadge(state: AudioSocket.ConnectionState): (b: Badge)
    ensures b.labelText == "Error" <==> state == AudioSocket.Error
    ensures b.labelText == "Connected" <==> state == AudioSocket.Connected
  {
    match state
    case Connected => Badge("bg-black dark:bg-white", "text-black dark:text-white", "Connected")
    case Connecting => Badge("bg-neutral-400 animate-pulse", "text-neutral-500", "Connecting...")
    case Disconnected => Badge("bg-neutral-300 dark:bg-neutral-700", "text-neutral-400 dark:text-neutral-500", "Disconnected")
    case Error => Badge("bg-red-500", "text-red-500", "Error")
  }

  /** Different states show different labels, so the label identifies the
      state. */
  lemma BadgeLabelsDistinct(a: AudioSocket.ConnectionState, b: AudioSocket.ConnectionState)
    ensures ConnectionBadge(a).labelText == ConnectionBadge(b).labelText ==> a == b
  {
  }
}
