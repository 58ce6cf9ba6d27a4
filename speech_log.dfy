/** The activity log of the capture hook: `addLogEntry` appends an entry and
    keeps only the last SPEECH_LOG_MAX_ENTRIES with `slice(-N)`.

    An entry's random id and its locale timestamp are left out; its message is
    kept as structured data rather than as the display text. */
module SpeechLog {
  import opened Wrappers

  datatype EntryKind = Start | End | Error | Info

  datatype Message =
    | ServerConnected                         // "server connected"
    | ServerDisconnected                      // "server disconnected"
    | ServerError                             // "server connection error"
    | TtsPlayback                             // "TTS playback"
    | SessionReady(idPrefix: Option<string>)  // "session: <first 8 chars of session_id>..."
    | TranscriptText(text: string)            // the transcript text
    | ChunkSent(chunkNum: nat, samples: nat)  // "chunk #n: <duration of samples>ms"
    | SpeechStarted                           // "speech detected - streaming starts"
    | SpeechEnded(chunks: nat)                // "speech ended - n chunks sent"
    | AudioSetupFailed(cause: string)         // "audio setup failed: <cause>"

  datatype LogEntry = LogEntry(kind: EntryKind, message: Message)

  /** `s.slice(-n)`: the last `n` elements. `-0` is `0` in JavaScript, so
      `slice(-0)` returns the whole array. */
  function KeepLast<T>(s: seq<T>, n: nat): (r: seq<T>)
    ensures n == 0 ==> r == s
    ensures n > 0 ==> |r| == if |s| <= n then |s| else n
  {
    if n == 0 || |s| <= n then s else s[|s| - n..]
  }

  /** What `slice(-n)` keeps is a suffix of the array. */
  lemma KeepLastIsSuffix<T>(s: seq<T>, n: nat)
    ensures var r := KeepLast(s, n); r == s[|s| - |r|..]
  {
  }

  /** The new log of `addLogEntry`: append, then trim. */
  function Append(log: seq<LogEntry>, entry: LogEntry, maxEntries: nat): (r: seq<LogEntry>)
    ensures |r| > 0 && r[|r| - 1] == entry
    ensures maxEntries > 0 ==> |r| <= maxEntries
    ensures maxEntries > 0 && |log| < maxEntries ==> r == log + [entry]
    ensures |r| <= |log| + 1
  {
    KeepLastIsSuffix(log + [entry], maxEntries);
    KeepLast(log + [entry], maxEntries)
  }

  /** Every entry but the new one is a suffix of the old log: the oldest
      entries are the ones evicted, and the order is kept. */
  lemma AppendEvictsOldest(log: seq<LogEntry>, entry: LogEntry, maxEntries: nat)
    ensures var r := Append(log, entry, maxEntries);
            r[..|r| - 1] == log[|log| - (|r| - 1)..]
  {
    var r := Append(log, entry, maxEntries);
    KeepLastIsSuffix(log + [entry], maxEntries);
    assert r[..|r| - 1] == (log + [entry])[|log| + 1 - |r|..|log|];
  }

  /** Appending entries one at a time. */
  function AppendAll(log: seq<LogEntry>, entries: seq<LogEntry>, maxEntries: nat): seq<LogEntry>
    decreases |entries|
  {
    if entries == [] then log else AppendAll(Append(log, entries[0], maxEntries), entries[1..], maxEntries)
  }

  /** Trimming early and trimming late agree: trimming the log and then
      appending and trimming again keeps the same last `n` elements. */
  lemma KeepLastAbsorbs<T>(s: seq<T>, t: seq<T>, n: nat)
    ensures KeepLast(KeepLast(s, n) + t, n) == KeepLast(s + t, n)
  {
    if n > 0 && |s| > n {
      var k := s[|s| - n..];
      assert KeepLast(s, n) == k;
      var a, b := k + t, s + t;
      if t == [] {
        assert a == k && b == s;
      } else {
        assert KeepLast(a, n) == a[|t|..];
        assert KeepLast(b, n) == b[|s| + |t| - n..];
        forall i | 0 <= i < n
          ensures a[|t|..][i] == b[|s| + |t| - n..][i]
        {
          if |t| + i < n {
            assert a[|t| + i] == k[|t| + i] == s[|s| - n + |t| + i];
          } else {
            assert a[|t| + i] == t[|t| + i - n];
          }
        }
        assert a[|t|..] == b[|s| + |t| - n..];
      }
    }
  }

  /** Starting from a log within bounds, any run of appends keeps exactly the
      last `n` of everything logged, in the order logged. */
  lemma {:induction false} AppendAllKeepsLast(log: seq<LogEntry>, entries: seq<LogEntry>, n: nat)
    requires n == 0 || |log| <= n
    ensures AppendAll(log, entries, n) == KeepLast(log + entries, n)
    decreases |entries|
  {
    if entries == [] {
      assert log + entries == log;
    } else {
      var e, rest := entries[0], entries[1..];
      assert entries == [e] + rest;
      assert log + [e] + rest == log + entries;
      var next := Append(log, e, n);
      assert AppendAll(log, entries, n) == AppendAll(next, rest, n);
      AppendAllKeepsLast(next, rest, n);
      KeepLastAbsorbs(log + [e], rest, n);
    }
  }

  /** Logging N + 5 entries into an empty log bounded at N keeps exactly the
      last N of them, in order: the first five are evicted. */
  lemma LoggingNPlusFive(entries: seq<LogEntry>, n: nat)
    requires n > 0 && |entries| == n + 5
    ensures AppendAll([], entries, n) == entries[5..]
  {
    AppendAllKeepsLast([], entries, n);
    assert [] + entries == entries;
  }
}
