/** The paging logic of the participant sidebar: the local participant first,
    a window of `maxVisible` entries starting at `startIndex`, the two scroll
    arrows and their handlers, and the lookup of a participant's camera
    track. The React state cell `startIndex` is only ever replaced wholesale,
    so every piece is a function of its inputs. */
module ParticipantSidebar {
  import opened Wrappers
  import Sequences

  /** A participant, known by its identity. */
  datatype Participant = Participant(identity: string)

  /** A camera track reference: the participant it belongs to and the
      published track, if any (`withPlaceholder: true` yields references
      without one). */
  datatype TrackReference = TrackReference(participant: Participant, track: Option<string>)

  /** The filter predicate `p.identity !== localParticipant?.identity`:
      without a local participant the right side is `undefined`, which no
      identity string equals. */
  predicate IsOther(local: Option<Participant>, p: Participant)
  {
    local.None? || p.identity != local.value.identity
  }

  /** `sortedParticipants` */
  function SortedParticipants(participants: seq<Participant>, local: Option<Participant>): (r: seq<Participant>)
    ensures local.Some? ==> |r| > 0 && r[0] == local.value
    ensures local.Some? ==> forall i :: 1 <= i < |r| ==> r[i].identity != local.value.identity
    ensures forall i :: 0 <= i < |participants| && IsOther(local, participants[i]) ==> participants[i] in r
  {
    var others := Sequences.Filter(participants, p => IsOther(local, p));
    if local.Some? then [local.value] + others else others
  }

  /** Without a local participant the list is the participant list itself,
      in its own order. */
  lemma NoLocalKeepsOrder(participants: seq<Participant>)
    ensures SortedParticipants(participants, None) == participants
  {
    Sequences.FilterKeepsAll(participants, p => IsOther(None, p));
  }

  /** With a local participant, its identity occurs exactly once, at the
      front; the rest are the other participants in their original order. */
  lemma LocalFirstExactlyOnce(participants: seq<Participant>, local: Participant)
    ensures var r := SortedParticipants(participants, Some(local));
            && r[0] == local
            && (forall i :: 0 <= i < |r| && r[i].identity == local.identity ==> i == 0)
            && r[1..] == Sequences.Filter(participants, p => IsOther(Some(local), p))
  {
  }

  /** How `Array.prototype.slice` reads a bound: a negative bound counts
      from the end, and every bound is clamped to `[0, length]`. */
  function SliceBound(i: int, length: nat): (k: nat)
    ensures k <= length
    ensures 0 <= i ==> k == if i <= length then i else length
    ensures i < 0 ==> k == if length + i >= 0 then length + i else 0
  {
    if i < 0 then (if length + i >= 0 then length + i else 0)
    else if i <= length then i
    else length
  }

  /** `s.slice(begin, end)` */
  function Slice<T>(s: seq<T>, begin: int, end: int): (r: seq<T>)
    ensures |r| <= |s|
    ensures SliceBound(begin, |s|) + |r| == if SliceBound(begin, |s|) <= SliceBound(end, |s|) then SliceBound(end, |s|) else SliceBound(begin, |s|)
    ensures forall i :: 0 <= i < |r| ==> r[i] == s[SliceBound(begin, |s|) + i]
  {
    var b, e := SliceBound(begin, |s|), SliceBound(end, |s|);
    if b <= e then s[b..e] else []
  }

  /** `visibleParticipants`: the window of at most `maxVisible` entries that
      starts at `startIndex`. */
  function VisibleParticipants(sorted: seq<Participant>, startIndex: int, maxVisible: int): (r: seq<Participant>)
  {
    Slice(sorted, startIndex, startIndex + maxVisible)
  }

  /** A window that starts inside the list shows the consecutive entries from
      `startIndex`, at most `maxVisible` of them, and exactly `maxVisible`
      when that many remain. */
  lemma VisibleWindow(sorted: seq<Participant>, startIndex: int, maxVisible: int)
    requires 0 <= startIndex && 0 <= maxVisible
    ensures var r := VisibleParticipants(sorted, startIndex, maxVisible);
            && |r| <= maxVisible
            && (forall i :: 0 <= i < |r| ==> r[i] == sorted[startIndex + i])
            && (startIndex + maxVisible <= |sorted| ==> |r| == maxVisible)
            && (startIndex <= |sorted| ==> startIndex + |r| == if startIndex + maxVisible <= |sorted| then startIndex + maxVisible else |sorted|)
  {
  }

  /** `showUpArrow` */
  predicate ShowUpArrow(startIndex: int)
  {
    startIndex > 0
  }

  /** `showDownArrow` */
  predicate ShowDownArrow(startIndex: int, maxVisible: int, total: int)
  {
    startIndex + maxVisible < total
  }

  /** The down arrow shows exactly when the window stops short of the end of
      the list: some participant is hidden below it. */
  lemma DownArrowIffHiddenBelow(sorted: seq<Participant>, startIndex: int, maxVisible: int)
    requires 0 <= startIndex <= |sorted| && 0 <= maxVisible
    ensures ShowDownArrow(startIndex, maxVisible, |sorted|) <==>
            startIndex + |VisibleParticipants(sorted, startIndex, maxVisible)| < |sorted|
  {
    VisibleWindow(sorted, startIndex, maxVisible);
  }

  /** `handleUp`: `Math.max(0, startIndex - 1)`. */
  function HandleUp(startIndex: int): (r: int)
    ensures r >= 0
    ensures ShowUpArrow(startIndex) ==> r == startIndex - 1
    ensures !ShowUpArrow(startIndex) ==> r == 0
  {
    if startIndex - 1 > 0 then startIndex - 1 else 0
  }

  /** `handleDown`: `Math.min(totalParticipants - maxVisible, startIndex + 1)`. */
  function HandleDown(startIndex: int, maxVisible: int, total: int): (r: int)
    ensures r <= total - maxVisible && r <= startIndex + 1
    ensures ShowDownArrow(startIndex, maxVisible, total) ==> r == startIndex + 1
    ensures !ShowDownArrow(startIndex, maxVisible, total) ==> r == total - maxVisible
  {
    if total - maxVisible < startIndex + 1 then total - maxVisible else startIndex + 1
  }

  /** A window start is in range when it is not negative and, unless it is
      zero, leaves no empty slot below a full window. */
  predicate InRange(startIndex: int, maxVisible: int, total: int)
  {
    0 <= startIndex && (startIndex == 0 || startIndex + maxVisible <= total)
  }

  /** Scrolling keeps the window in range: up always, down whenever its
      button is enabled (the button is disabled without the down arrow). */
  lemma ScrollingStaysInRange(startIndex: int, maxVisible: int, total: int)
    requires 0 <= maxVisible && InRange(startIndex, maxVisible, total)
    ensures InRange(HandleUp(startIndex), maxVisible, total)
    ensures ShowDownArrow(startIndex, maxVisible, total) ==> InRange(HandleDown(startIndex, maxVisible, total), maxVisible, total)
  {
  }

  /** Scrolling down and then up returns to the same window. */
  lemma DownThenUp(startIndex: int, maxVisible: int, total: int)
    requires 0 <= startIndex && ShowDownArrow(startIndex, maxVisible, total)
    ensures HandleUp(HandleDown(startIndex, maxVisible, total)) == startIndex
  {
  }

  /** The first track whose participant has the given identity: the index of
      `tracks.find`'s hit. */
  function FindTrackIndex(tracks: seq<TrackReference>, identity: string): (r: Option<nat>)
    ensures r.Some? ==> r.value < |tracks| && tracks[r.value].participant.identity == identity
    ensures r.Some? ==> forall j :: 0 <= j < r.value ==> tracks[j].participant.identity != identity
    ensures r.None? ==> forall j :: 0 <= j < |tracks| ==> tracks[j].participant.identity != identity
  {
    if tracks == [] then None
    else if tracks[0].participant.identity == identity then Some(0)
    else match FindTrackIndex(tracks[1..], identity)
      case None => None
      case Some(k) => Some(k + 1)
  }

  /** `getTrackForParticipant` */
  function GetTrackForParticipant(tracks: seq<TrackReference>, participant: Participant): (r: Option<TrackReference>)
    ensures r.Some? <==> exists j :: 0 <= j < |tracks| && tracks[j].participant.identity == participant.identity
    ensures r.Some? ==> r.value in tracks && r.value.participant.identity == participant.identity
  {
    match FindTrackIndex(tracks, participant.identity)
    case None => None
    case Some(k) => Some(tracks[k])
  }

  /** When two tracks share an identity, the earlier one is returned. */
  lemma FirstMatchWins(tracks: seq<TrackReference>, participant: Participant, j: nat)
    requires j < |tracks| && tracks[j].participant.identity == participant.identity
    ensures var k := FindTrackIndex(tracks, participant.identity);
            && k.Some? && k.value <= j
            && GetTrackForParticipant(tracks, participant) == Some(tracks[k.value])
  {
  }
}
