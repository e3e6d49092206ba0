/** The GameSandbox component's state cells and handlers, updated in place. Each handler
    is proved to perform the corresponding transition of module Engine, so the lemmas
    proved there (lives bounds, level rule, coin placement, meter timing) hold of it. */
module Sandbox {
  import opened Difficulty
  import Engine

  class GameSandbox {
    var started: bool
    var score: nat
    var level: nat
    var lives: nat
    var gameOver: bool
    var correctId: nat
    var heat: nat
    var flash: Engine.Flash
    var shake: bool
    /** Whether the ambient hum oscillator is present (the oscillator reference is set). */
    var hum: bool

    /** The state cells as one session record. */
    function Snapshot(): Engine.Session
      reads this
    {
      Engine.Session(started, score, level, lives, gameOver, correctId, heat, flash, shake, hum)
    }

    /** The class invariant: every method requires and keeps it. */
    ghost predicate Valid()
      reads this
    {
      Engine.Valid(Snapshot())
    }

    /** Valid, and the coin on a visible cell: kept by everything but the program's TRY AGAIN. */
    ghost predicate Fair()
      reads this
    {
      Engine.Fair(Snapshot())
    }

    /** Mounting: the initial state cells, then the mount-time reshuffle with draw `r`. */
    constructor (r: nat)
      requires r < BlockCount(1)
      ensures Snapshot() == Engine.Initial(r)
      ensures Valid() && Fair()
    {
      started, score, level, lives, gameOver := false, 0, 1, MaxLives, false;
      correctId, heat, flash, shake, hum := 0, 0, Engine.NoFlash, false, false;
      new;
      Reshuffle(BlockCount(level), r);
    }

    /** The START MINING button. */
    method Start()
      requires Valid()
      modifies this
      ensures Snapshot() == Engine.Start(old(Snapshot()))
      ensures Valid()
      ensures old(Fair()) ==> Fair()
    {
      if Fair() {
        Engine.StartKeepsFair(Snapshot());
      }
      started := true;
    }

    /** Called only from a tap in a live run. */
    method StartHum()
      requires Valid() && started && !gameOver
      modifies this
      ensures Snapshot() == Engine.StartHum(old(Snapshot()))
      ensures Valid()
      ensures old(Fair()) ==> Fair()
    {
      if hum {
        return;
      }
      hum := true;
    }

    method StopHum()
      requires Valid()
      modifies this
      ensures Snapshot() == Engine.StopHum(old(Snapshot()))
      ensures Valid()
      ensures old(Fair()) ==> Fair()
    {
      hum := false;
    }

    /** Every caller draws over a block count, so at most over the twelve slots. */
    method Reshuffle(bound: nat, r: nat)
      requires Valid() && r < bound <= MaxBlocks
      modifies this
      ensures Snapshot() == Engine.Reshuffle(old(Snapshot()), bound, r)
      ensures correctId < bound && heat == 0
      ensures Valid()
      ensures bound <= BlockCount(level) ==> Fair()
    {
      correctId := r;
      heat := 0;
    }

    /** Called only from a tick or a tap in a live run. */
    method LoseLife(r: nat)
      requires Valid() && started && r < BlockCount(level)
      modifies this
      ensures Snapshot() == Engine.LoseLife(old(Snapshot()), r)
      ensures Valid()
      ensures old(Fair()) ==> Fair()
    {
      Engine.LoseLifeKeepsValid(Snapshot(), r);
      flash := Engine.MissFlash;
      shake := true;
      if lives - 1 <= 0 {
        StopHum();
        gameOver := true;
        lives := 0;
      } else {
        lives := lives - 1;
      }
      Reshuffle(BlockCount(level), r);
    }

    /** The body of the 100 ms heat interval, which only runs while the run is live. */
    method HeatTick(r: nat)
      requires Valid() && r < BlockCount(level)
      modifies this
      ensures Snapshot() == Engine.HeatTick(old(Snapshot()), r)
      ensures Valid()
      ensures old(Fair()) ==> Fair()
      ensures started && !gameOver ==> heat < IdleTicks(level)
    {
      Engine.HeatTickKeepsValid(Snapshot(), r);
      if Fair() {
        Engine.HeatTickKeepsFair(Snapshot(), r);
      }
      Engine.HeatTickEffect(Snapshot(), r);
      if gameOver || !started {
        return;
      }
      var next := heat + 1;
      if next >= IdleTicks(level) {
        LoseLife(r);
        heat := 0;
      } else {
        heat := next;
      }
    }

    method Tap(i: nat, r: nat)
      requires Valid() && r < BlockCount(level)
      modifies this
      ensures Snapshot() == Engine.Tap(old(Snapshot()), i, r)
      ensures Valid()
      ensures old(Fair()) ==> Fair()
    {
      Engine.TapKeepsValid(Snapshot(), i, r);
      if Fair() {
        Engine.TapKeepsFair(Snapshot(), i, r);
      }
      if gameOver || !started {
        return;
      }
      StartHum();
      if i == correctId {
        flash := Engine.HitFlash;
        var next := score + 1;
        if next % LevelUpEvery == 0 {
          level := level + 1;
        }
        score := next;
      } else {
        LoseLife(r);
      }
    }

    /** The 90 ms timeout scheduled by a hit; `bound` is the block count it captured. */
    method FinishHit(bound: nat, r: nat)
      requires Valid() && r < bound <= MaxBlocks
      modifies this
      ensures Snapshot() == Engine.FinishHit(old(Snapshot()), bound, r)
      ensures Valid()
      ensures old(Fair()) && bound <= BlockCount(level) ==> Fair()
    {
      Engine.FinishHitKeepsValid(Snapshot(), bound, r);
      if Fair() && bound <= BlockCount(level) {
        Engine.FinishHitKeepsFair(Snapshot(), bound, r);
      }
      flash := Engine.NoFlash;
      Reshuffle(bound, r);
    }

    method ClearFlash()
      requires Valid()
      modifies this
      ensures Snapshot() == Engine.ClearFlash(old(Snapshot()))
      ensures Valid()
      ensures old(Fair()) ==> Fair()
    {
      flash := Engine.NoFlash;
    }

    method EndShake()
      requires Valid()
      modifies this
      ensures Snapshot() == Engine.EndShake(old(Snapshot()))
      ensures Valid()
      ensures old(Fair()) ==> Fair()
    {
      shake := false;
    }

    /** TRY AGAIN, as the program does it: the reshuffle still draws over the grid of the level
        the game ended at, so the coin can land outside the level-1 grid. */
    method Restart(r: nat)
      requires Valid() && r < BlockCount(level)
      modifies this
      ensures Snapshot() == Engine.RestartAsWritten(old(Snapshot()), r)
      ensures Valid()
      ensures !started && score == 0 && level == 1 && lives == MaxLives && !gameOver && !hum
      ensures correctId < BlockCount(old(level))
    {
      Engine.RestartAsWrittenEffect(Snapshot(), r);
      var bound := BlockCount(level);
      StopHum();
      started := false;
      score := 0;
      level := 1;
      lives := MaxLives;
      gameOver := false;
      Reshuffle(bound, r);
    }

    /** TRY AGAIN, corrected: the reshuffle draws over the level-1 grid. */
    method RestartCorrected(r: nat)
      requires Valid() && r < BlockCount(1)
      modifies this
      ensures Snapshot() == Engine.Restart(old(Snapshot()), r)
      ensures Valid() && Fair()
      ensures !started && score == 0 && level == 1 && lives == MaxLives && !gameOver && !hum
    {
      StopHum();
      started := false;
      score := 0;
      level := 1;
      lives := MaxLives;
      gameOver := false;
      Reshuffle(BlockCount(level), r);
    }
  }
}
