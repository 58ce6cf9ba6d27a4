/** The frame accumulator of the capture callback: the chunk threshold at the
    native rate, the running total of buffered samples and the concatenation
    of the buffered frames into one native-rate chunk. */
module Chunking {
  import opened Constants
  import TypedArrays

  /** `CHUNK_SIZE_NATIVE = Math.floor(1600 * (nativeSampleRate / 16000))`:
      the native-rate equivalent of 100 ms, rounded down. */
  function ChunkSizeNative(nativeRate: nat): (c: nat)
    ensures c * AudioSampleRate <= ChunkSize16k * nativeRate < (c + 1) * AudioSampleRate
  {
    (ChunkSize16k * nativeRate) / AudioSampleRate
  }

  /** `audioBuffer.reduce((acc, arr) => acc + arr.length, 0)`: a left fold. */
  function TotalLength(frames: seq<seq<real>>): nat
  {
    if frames == [] then 0 else TotalLength(frames[..|frames| - 1]) + |frames[|frames| - 1]|
  }

  /** The in-order concatenation of the buffered frames. */
  function Flatten(frames: seq<seq<real>>): seq<real>
  {
    if frames == [] then [] else Flatten(frames[..|frames| - 1]) + frames[|frames| - 1]
  }

  /** The concatenation holds exactly as many samples as the frames. */
  lemma {:induction false} FlattenLength(frames: seq<seq<real>>)
    ensures |Flatten(frames)| == TotalLength(frames)
  {
    if frames != [] {
      FlattenLength(frames[..|frames| - 1]);
    }
  }

  /** Concatenating two runs of frames concatenates their samples: the frames
      buffered first come first in the chunk. */
  lemma {:induction false} FlattenAppend(a: seq<seq<real>>, b: seq<seq<real>>)
    ensures Flatten(a + b) == Flatten(a) + Flatten(b)
    decreases |b|
  {
    if b == [] {
      assert a + b == a;
    } else {
      var init, last := b[..|b| - 1], b[|b| - 1];
      assert (a + b)[..|a + b| - 1] == a + init;
      assert (a + b)[|a + b| - 1] == last;
      FlattenAppend(a, init);
      calc {
        Flatten(a + b);
        Flatten(a + init) + last;
        Flatten(a) + Flatten(init) + last;
        Flatten(a) + (Flatten(init) + last);
        Flatten(a) + Flatten(b);
      }
    }
  }

  /** The total over a prefix of the frames never exceeds the whole total. */
  lemma {:induction false} TotalLengthPrefix(frames: seq<seq<real>>, k: nat)
    requires k <= |frames|
    ensures TotalLength(frames[..k]) <= TotalLength(frames)
    decreases |frames|
  {
    if k < |frames| {
      var init := frames[..|frames| - 1];
      assert init[..k] == frames[..k];
      TotalLengthPrefix(init, k);
    } else {
      assert frames[..k] == frames;
    }
  }

  /** The copy loop of the capture callback: a Float32Array of `totalSamples`
      filled with `nativeChunk.set(arr, offset); offset += arr.length` for
      every buffered frame in order. */
  method ConcatFrames(frames: seq<seq<real>>) returns (chunk: seq<real>)
    ensures chunk == Flatten(frames)
    ensures |chunk| == TotalLength(frames)
  {
    var totalSamples := TotalLength(frames);
    var nativeChunk := new real[totalSamples];
    var offset := 0;
    for k := 0 to |frames|
      invariant offset == TotalLength(frames[..k]) <= totalSamples
      invariant nativeChunk[..offset] == Flatten(frames[..k])
    {
      assert frames[..k + 1][..k] == frames[..k];
      TotalLengthPrefix(frames, k + 1);
      TypedArrays.Set(nativeChunk, frames[k], offset);
      assert nativeChunk[..offset + |frames[k]|] == nativeChunk[..offset] + frames[k];
      offset := offset + |frames[k]|;
    }
    assert frames[..|frames|] == frames;
    FlattenLength(frames);
    chunk := nativeChunk[..];
  }

  /** An emitted chunk reaches the threshold and exceeds it by less than the
      frame that completed it: with 4096-sample frames at 48 kHz the second
      frame emits 8192 native samples against a threshold of 4800. */
  lemma EmittedChunkSize(buffered: seq<seq<real>>, frame: seq<real>, threshold: nat)
    requires TotalLength(buffered) < threshold <= TotalLength(buffered + [frame])
    ensures threshold <= |Flatten(buffered + [frame])| < threshold + |frame|
  {
    assert (buffered + [frame])[..|buffered + [frame]| - 1] == buffered;
    FlattenLength(buffered + [frame]);
  }

  /** Two buffered frames form one chunk, the first frame ahead of the
      second. */
  lemma FlattenPair(a: seq<real>, b: seq<real>)
    ensures Flatten([a, b]) == a + b
    ensures TotalLength([a]) == |a| && TotalLength([a, b]) == |a| + |b|
  {
    assert [a, b][..1] == [a];
    assert [a][..0] == [];
    assert Flatten([a]) == a by {
      assert Flatten([a]) == Flatten([]) + a;
      assert [] + a == a;
    }
  }

  /** The 48 kHz threshold, and the two-frame total that crosses it. */
  lemma ChunkAt48k(f1: seq<real>, f2: seq<real>)
    requires |f1| == |f2| == 4096
    ensures ChunkSizeNative(48000) == 4800
    ensures TotalLength([f1]) < ChunkSizeNative(48000) <= TotalLength([f1, f2]) == 8192
  {
    assert [f1, f2][..1] == [f1];
    assert [f1][..0] == [];
  }
}
