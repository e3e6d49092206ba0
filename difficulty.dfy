/** Difficulty scaling of the Block Miner game: every value the game derives
    from the current level. All of them are plain functions of `level`. */
module Difficulty {

  const MaxLives: nat := 3
  const BaseIdleMs: nat := 4000
  const LevelUpEvery: nat := 4
  const MaxBlocks: nat := 12

  /** Number of visible cells in the grid: 6 below level 3, 9 below level 5, 12 from there on. */
  function BlockCount(level: nat): (r: nat)
    ensures r == 6 || r == 9 || r == 12
    ensures r <= MaxBlocks
    ensures level < 3 <==> r == 6
    ensures level >= 5 <==> r == 12
  {
    if level < 3 then 6 else if level < 5 then 9 else 12
  }

  lemma BlockCountMonotone(a: nat, b: nat)
    requires a <= b
    ensures BlockCount(a) <= BlockCount(b)
  {
  }

  /** Milliseconds of inactivity before the heat meter is full: 300 ms less per level, never below 1800 ms. */
  function IdleMs(level: nat): (r: nat)
    ensures 1800 <= r <= BaseIdleMs
    ensures r % 100 == 0
    ensures r > 1800 ==> r + 300 * level == BaseIdleMs
    ensures 300 * level <= BaseIdleMs - 1800 ==> r + 300 * level == BaseIdleMs
  {
    if BaseIdleMs - level * 300 >= 1800 then BaseIdleMs - level * 300 else 1800
  }

  lemma IdleMsMonotone(a: nat, b: nat)
    requires a <= b
    ensures IdleMs(b) <= IdleMs(a)
  {
  }

  /** Number of 100 ms heat ticks that fill the meter: the meter gains 100 / (idleMs / 100) per tick. */
  function IdleTicks(level: nat): (k: nat)
    ensures k * 100 == IdleMs(level)
    ensures 18 <= k <= 40
    ensures level >= 1 ==> k <= IdleTicks(1) == 37
  {
    IdleMs(level) / 100
  }

  /** Side length in pixels of one cell: 72, 60, 52 or 44 across the bands ending at levels 3, 6 and 9. */
  function BlockSize(level: nat): (r: nat)
    ensures r == 72 || r == 60 || r == 52 || r == 44
    ensures r == 72 <==> level < 3
    ensures r == 60 <==> 3 <= level < 6
    ensures r == 52 <==> 6 <= level < 9
    ensures r == 44 <==> level >= 9
  {
    if level < 3 then 72 else if level < 6 then 60 else if level < 9 then 52 else 44
  }

  lemma BlockSizeMonotone(a: nat, b: nat)
    requires a <= b
    ensures BlockSize(b) <= BlockSize(a)
  {
  }

  /** The decoy probability as an exact fraction: 0.25 + 0.07 per level, capped at 0.8. */
  function DecoyChance(level: nat): (p: real)
    ensures 0.25 < p <= 0.8 || level == 0
  {
    var raw := 0.25 + level as real * 0.07;
    if raw < 0.8 then raw else 0.8
  }

  /** The decoy probability in hundredths, the integer form the model reasons about. */
  function DecoyHundredths(level: nat): (h: nat)
    ensures 25 <= h <= 80
    ensures h < 80 ==> h == 25 + 7 * level
    ensures level < 8 ==> h == 25 + 7 * level
    ensures level >= 8 ==> h == 80
  {
    if 25 + 7 * level < 80 then 25 + 7 * level else 80
  }

  /** The hundredths form is the source's probability, exactly. */
  lemma DecoyHundredthsIsChance(level: nat)
    ensures DecoyHundredths(level) as real / 100.0 == DecoyChance(level)
  {
  }

  lemma DecoyMonotone(a: nat, b: nat)
    requires a <= b
    ensures DecoyHundredths(a) <= DecoyHundredths(b)
  {
  }

  /** How much the meter (in percent) gains on one 100 ms tick, exactly as the source computes it. */
  function HeatStep(level: nat): (step: real)
    ensures step * IdleTicks(level) as real == 100.0
  {
    100.0 / (IdleMs(level) as real / 100.0)
  }

  /** The tick abstraction is exact: starting from an empty meter, n ticks fill it (reach 100)
      if and only if n is at least IdleTicks(level). */
  lemma MeterFullAfterIdleTicks(level: nat, n: nat)
    ensures n as real * HeatStep(level) >= 100.0 <==> n >= IdleTicks(level)
  {
    var k := IdleTicks(level) as real;
    var step := HeatStep(level);
    assert n as real * step - 100.0 == step * (n as real - k) by {
      assert step * k == 100.0;
    }
    PositiveFactorSign(step, n as real - k);
  }

  /** Multiplying by a positive factor keeps the sign. */
  lemma PositiveFactorSign(a: real, b: real)
    requires a > 0.0
    ensures a * b >= 0.0 <==> b >= 0.0
  {
    if b < 0.0 {
      assert a * b == -(a * -b);
    }
  }
}
