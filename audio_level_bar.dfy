/** The input level meter: a bar whose width is the level as a percentage,
    clamped to [0, 100], an active colour above five percent, and five dots
    lit at every twenty percent. Levels are reals; the NaN level is not part
    of this model. */
module AudioLevelBar {

  /** `Math.min(Math.max(level * 100, 0), 100)` */
  function Percentage(level: real): (p: real)
    ensures 0.0 <= p <= 100.0
    ensures level <= 0.0 ==> p == 0.0
    ensures level >= 1.0 ==> p == 100.0
    ensures 0.0 <= level <= 1.0 ==> p == level * 100.0
  {
    var scaled := level * 100.0;
    var atLeastZero := if scaled > 0.0 then scaled else 0.0;
    if atLeastZero < 100.0 then atLeastZero else 100.0
  }

  /** `isActive`: the bar takes the active colour above five percent. */
  predicate IsActive(level: real)
  {
    Percentage(level) > 5.0
  }

  /** The bar is active exactly when the level exceeds 0.05. */
  lemma ActiveIffAboveThreshold(level: real)
    ensures IsActive(level) <==> level > 0.05
  {
  }

  /** The number of dots. */
  const DotCount: nat := 5

  /** Dot `i` (counted from zero) is lit when the percentage reaches
      `(i + 1) * 20`. */
  function LitDots(level: real): (lit: seq<bool>)
    ensures |lit| == DotCount
  {
    seq(DotCount, i => Percentage(level) >= ((i + 1) * 20) as real)
  }

  /** In terms of the level itself, dot `i` is lit exactly when the level
      reaches `(i + 1) / 5`: the clamp never decides a dot. */
  lemma DotLitIffLevel(level: real, i: nat)
    requires i < DotCount
    ensures LitDots(level)[i] <==> level >= (i + 1) as real / 5.0
  {
    var p := Percentage(level);
    assert LitDots(level)[i] == (p >= ((i + 1) * 20) as real);
    if level < 0.0 {
      assert p == 0.0;
    } else if level > 1.0 {
      assert p == 100.0;
    } else {
      assert p == level * 100.0;
    }
  }

  /** The lit dots form a prefix: a lit dot has every dot before it lit. */
  lemma LitDotsArePrefix(level: real, i: nat, j: nat)
    requires j < i < DotCount
    ensures LitDots(level)[i] ==> LitDots(level)[j]
  {
  }

  /** A level of one or more fills the meter and is active; a level of zero
      or less lights no dot and is inactive. */
  lemma FullAndSilentLevels(level: real)
    ensures level >= 1.0 ==> IsActive(level) && forall i :: 0 <= i < DotCount ==> LitDots(level)[i]
    ensures level <= 0.0 ==> !IsActive(level) && forall i :: 0 <= i < DotCount ==> !LitDots(level)[i]
  {
  }
}
