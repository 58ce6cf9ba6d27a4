/** Application constants shared by capture and playback. The constants module
    of the application is not part of this model; the value of the target rate
    is the one the capture code's own comment states (100 ms at 16 kHz is 1600
    samples). */
module Constants {

  /** AUDIO_SAMPLE_RATE: the rate of every chunk sent and every buffer played. */
  const AudioSampleRate: nat := 16000

  /** CHUNK_SIZE_16K: one chunk is 100 ms at the target rate. */
  const ChunkSize16k: nat := 1600
}
