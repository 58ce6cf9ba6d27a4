/** `Float32Array.prototype.set(source, offset)`: copies `source` into the
    target starting at `offset`, leaving every other element as it was. */
module TypedArrays {

  method Set(target: array<real>, source: seq<real>, offset: nat)
    requires offset + |source| <= target.Length
    modifies target
    ensures target[..offset] == old(target[..offset])
    ensures target[offset..offset + |source|] == source
    ensures target[offset + |source|..] == old(target[offset + |source|..])
  {
    for j := 0 to |source|
      invariant forall k :: 0 <= k < target.Length && !(offset <= k < offset + j) ==> target[k] == old(target[k])
      invariant forall k :: offset <= k < offset + j ==> target[k] == source[k - offset]
    {
      target[offset + j] := source[j];
    }
  }
}
