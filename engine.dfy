/** The session state machine of the Block Miner game as pure transitions on a
    session record. Each transition is one handler of the game component; the
    class in module Sandbox performs the same transitions in place. */
module Engine {
  import opened Difficulty

  /** The transient highlight shown after a tap. */
  datatype Flash = NoFlash | HitFlash | MissFlash

  /** One game session. `heat` counts the 100 ms ticks since the last reshuffle;
      `hum` says whether the ambient hum oscillator is present. */
  datatype Session = Session(
    started: bool,
    score: nat,
    level: nat,
    lives: nat,
    gameOver: bool,
    correctId: nat,
    heat: nat,
    flash: Flash,
    shake: bool,
    hum: bool)

  /** What every session of the game satisfies: lives within [0, MaxLives], the level
      determined by the score, game over exactly when no life is left, game over and the
      hum only once the run has started, the hum silent after game over, the meter below
      a full level-1 window and the real coin among the twelve grid slots. */
  ghost predicate Valid(s: Session)
  {
    && s.lives <= MaxLives
    && s.level == 1 + s.score / LevelUpEvery
    && (s.gameOver <==> s.lives == 0)
    && (s.gameOver ==> s.started)
    && (s.hum ==> s.started && !s.gameOver)
    && s.heat < IdleTicks(1)
    && s.correctId < MaxBlocks
  }

  /** Valid, and the real coin is one of the cells the grid shows at the current level. */
  ghost predicate Fair(s: Session)
  {
    Valid(s) && s.correctId < BlockCount(s.level)
  }

  /** The session as mounted: the initial state cells, then the mount-time reshuffle
      with draw `r` over the level-1 grid. */
  function Initial(r: nat): (s: Session)
    requires r < BlockCount(1)
    ensures Fair(s)
    ensures !s.started && !s.gameOver && s.score == 0 && s.level == 1 && s.lives == MaxLives
  {
    Session(false, 0, 1, MaxLives, false, r, 0, NoFlash, false, false)
  }

  /** The START MINING button. */
  function Start(s: Session): (t: Session)
    ensures t.started
    ensures s.started ==> t == s
    ensures Valid(s) ==> Valid(t)
  {
    s.(started := true)
  }

  /** Start the ambient hum unless it is already present. */
  function StartHum(s: Session): (t: Session)
    ensures t.hum
    ensures s.hum ==> t == s
  {
    if s.hum then s else s.(hum := true)
  }

  /** Stop and drop the ambient hum. */
  function StopHum(s: Session): (t: Session)
    ensures !t.hum
    ensures !s.hum ==> t == s
  {
    s.(hum := false)
  }

  /** New round: draw `r` in [0, bound) as the real coin and empty the meter. */
  function Reshuffle(s: Session, bound: nat, r: nat): (t: Session)
    requires r < bound
    ensures t.correctId < bound && t.heat == 0
  {
    s.(correctId := r, heat := 0)
  }

  /** Shared by a wrong tap and a full meter: miss flash and shake, one life less
      (clamped at 0, which ends the game and stops the hum), then a reshuffle over
      the current grid, also when the game has just ended. */
  function LoseLife(s: Session, r: nat): (t: Session)
    requires r < BlockCount(s.level)
    ensures t.lives == if s.lives <= 1 then 0 else s.lives - 1
    ensures t.gameOver <==> s.gameOver || s.lives <= 1
    ensures t.lives == 0 ==> t.gameOver && !t.hum
    ensures t.heat == 0 && t.correctId < BlockCount(s.level)
    ensures t.score == s.score && t.level == s.level && t.started == s.started
  {
    var marked := s.(flash := MissFlash, shake := true);
    var counted :=
      if s.lives - 1 <= 0 then StopHum(marked).(gameOver := true, lives := 0)
      else marked.(lives := s.lives - 1);
    Reshuffle(counted, BlockCount(s.level), r)
  }

  /** One 100 ms tick of the heat interval. The interval only exists while the run is
      started and not over; a tick that fills the meter costs a life instead. */
  function HeatTick(s: Session, r: nat): (t: Session)
    requires r < BlockCount(s.level)
    ensures s.gameOver || !s.started ==> t == s
    ensures s.started && !s.gameOver ==> t.heat < IdleTicks(s.level)
    ensures t.level == s.level && t.score == s.score
    ensures t.lives == s.lives || t.lives + 1 == s.lives || t.lives == 0
  {
    if s.gameOver || !s.started then s
    else if s.heat + 1 >= IdleTicks(s.level) then LoseLife(s, r).(heat := 0)
    else s.(heat := s.heat + 1)
  }

  /** A tap on cell `i`. Ignored before the start and after game over; otherwise it starts
      the hum and either scores (score + 1, and level + 1 when the new score is a multiple
      of LevelUpEvery) or loses a life. */
  function Tap(s: Session, i: nat, r: nat): (t: Session)
    requires r < BlockCount(s.level)
    ensures s.gameOver || !s.started ==> t == s
    ensures s.started && !s.gameOver && i == s.correctId ==> t.score == s.score + 1 && t.lives == s.lives
    ensures s.started && !s.gameOver && i != s.correctId ==> t.score == s.score && t.lives == (if s.lives <= 1 then 0 else s.lives - 1)
  {
    if s.gameOver || !s.started then s
    else
      var humming := StartHum(s);
      if i == s.correctId then
        var next := s.score + 1;
        humming.(flash := HitFlash, score := next,
                 level := if next % LevelUpEvery == 0 then s.level + 1 else s.level)
      else LoseLife(humming, r)
  }

  /** The delayed part of a hit: clear the flash and reshuffle. `bound` is the block count of
      the render that scheduled it. While the run goes on the level only rises, so it is at
      most the current one; the timeout is never cancelled, so after a TRY AGAIN within
      90 ms it can be up to the twelve slots of an earlier level. */
  function FinishHit(s: Session, bound: nat, r: nat): (t: Session)
    requires r < bound <= MaxBlocks
    ensures t.correctId < bound && t.heat == 0 && t.flash == NoFlash
  {
    Reshuffle(s.(flash := NoFlash), bound, r)
  }

  /** The timeout that clears the miss flash. */
  function ClearFlash(s: Session): (t: Session)
    ensures t.flash == NoFlash
    ensures Valid(s) ==> Valid(t)
  {
    s.(flash := NoFlash)
  }

  /** The timeout that ends the screen shake. */
  function EndShake(s: Session): (t: Session)
    ensures !t.shake
    ensures Valid(s) ==> Valid(t)
  {
    s.(shake := false)
  }

  /** TRY AGAIN, as the source writes it: back to the start screen with a fresh session,
      but the reshuffle still draws over the grid of the level the game ended at. */
  function RestartAsWritten(s: Session, r: nat): (t: Session)
    requires r < BlockCount(s.level)
    ensures !t.started && t.score == 0 && t.level == 1 && t.lives == MaxLives && !t.gameOver && !t.hum
    ensures t.correctId < BlockCount(s.level)
  {
    var reset := StopHum(s).(started := false, score := 0, level := 1, lives := MaxLives, gameOver := false);
    Reshuffle(reset, BlockCount(s.level), r)
  }

  /** TRY AGAIN, corrected: the reshuffle draws over the level-1 grid the restarted game shows. */
  function Restart(s: Session, r: nat): (t: Session)
    requires r < BlockCount(1)
    ensures !t.started && t.score == 0 && t.level == 1 && t.lives == MaxLives && !t.gameOver && !t.hum
    ensures t.correctId < BlockCount(t.level)
  {
    var reset := StopHum(s).(started := false, score := 0, level := 1, lives := MaxLives, gameOver := false);
    Reshuffle(reset, BlockCount(1), r)
  }

  // ---------------------------------------------------------------------------
  // Properties of single transitions

  lemma StartKeepsFair(s: Session)
    requires Fair(s)
    ensures Fair(Start(s))
    ensures Start(s).started
    ensures s.started ==> Start(s) == s
  {
  }

  /** Starting the hum twice leaves one hum: the second call changes nothing. */
  lemma StartHumIdempotent(s: Session)
    ensures StartHum(s).hum
    ensures StartHum(StartHum(s)) == StartHum(s)
    ensures s.hum ==> StartHum(s) == s
    ensures StartHum(s) == s.(hum := true)
  {
  }

  lemma StopHumClears(s: Session)
    ensures !StopHum(s).hum
    ensures StopHum(s) == s.(hum := false)
    ensures StopHum(StopHum(s)) == StopHum(s)
  {
  }

  /** After any reshuffle the coin lies in [0, bound), the meter is empty, and nothing else moved. */
  lemma ReshuffleResets(s: Session, bound: nat, r: nat)
    requires r < bound
    ensures Reshuffle(s, bound, r).correctId < bound
    ensures Reshuffle(s, bound, r).heat == 0
    ensures Reshuffle(s, bound, r).(correctId := s.correctId, heat := s.heat) == s
  {
  }

  /** Life loss: one life less but never below 0; reaching 0 ends the game and silences the
      hum, otherwise game over and the hum stay as they were; the round is reshuffled. */
  lemma LoseLifeEffect(s: Session, r: nat)
    requires r < BlockCount(s.level)
    ensures var t := LoseLife(s, r);
      && t.lives == (if s.lives <= 1 then 0 else s.lives - 1)
      && (s.lives <= 1 ==> t.gameOver && !t.hum)
      && (s.lives > 1 ==> t.gameOver == s.gameOver && t.hum == s.hum)
      && t.flash == MissFlash && t.shake
      && t.heat == 0 && t.correctId == r
      && t.started == s.started && t.score == s.score && t.level == s.level
  {
  }

  /** Life loss is only reached from a live run (a tap or a tick), and there it keeps Valid. */
  lemma LoseLifeKeepsValid(s: Session, r: nat)
    requires Valid(s) && s.started && r < BlockCount(s.level)
    ensures Valid(LoseLife(s, r))
  {
  }

  /** Life loss is only reached from a live run (a tap or a tick), and there it keeps Fair. */
  lemma LoseLifeKeepsFair(s: Session, r: nat)
    requires Fair(s) && s.started && r < BlockCount(s.level)
    ensures Fair(LoseLife(s, r))
  {
  }

  /** A tick does nothing unless the run is live; then it either adds one tick, leaving the
      meter below full for the current level, or fills the meter and goes through life loss. */
  lemma HeatTickEffect(s: Session, r: nat)
    requires r < BlockCount(s.level)
    ensures s.gameOver || !s.started ==> HeatTick(s, r) == s
    ensures s.started && !s.gameOver && s.heat + 1 < IdleTicks(s.level) ==>
      HeatTick(s, r) == s.(heat := s.heat + 1)
    ensures s.started && !s.gameOver && s.heat + 1 >= IdleTicks(s.level) ==>
      HeatTick(s, r) == LoseLife(s, r)
    ensures s.started && !s.gameOver ==> HeatTick(s, r).heat < IdleTicks(s.level)
  {
  }

  lemma HeatTickKeepsValid(s: Session, r: nat)
    requires Valid(s) && r < BlockCount(s.level)
    ensures Valid(HeatTick(s, r))
  {
  }

  lemma HeatTickKeepsFair(s: Session, r: nat)
    requires Fair(s) && r < BlockCount(s.level)
    ensures Fair(HeatTick(s, r))
  {
  }

  /** A tap before the start or after game over changes nothing; a wrong tap is life loss
      (after starting the hum). */
  lemma TapIgnoredOrMiss(s: Session, i: nat, r: nat)
    requires r < BlockCount(s.level)
    ensures s.gameOver || !s.started ==> Tap(s, i, r) == s
    ensures s.started && !s.gameOver && i != s.correctId ==> Tap(s, i, r) == LoseLife(StartHum(s), r)
  {
  }

  /** A correct tap raises the score by exactly one, and the level by exactly one if and only
      if the new score is a multiple of LevelUpEvery; lives, coin and meter are untouched. */
  lemma TapHitEffect(s: Session, r: nat)
    requires r < BlockCount(s.level)
    requires s.started && !s.gameOver
    ensures var t := Tap(s, s.correctId, r);
      && t.score == s.score + 1
      && (t.level == s.level + 1 <==> t.score % LevelUpEvery == 0)
      && (t.level == s.level || t.level == s.level + 1)
      && t.hum && t.flash == HitFlash
      && t.lives == s.lives && t.gameOver == s.gameOver
      && t.correctId == s.correctId && t.heat == s.heat
  {
  }

  /** The level-up rule keeps level == 1 + score / LevelUpEvery. */
  lemma LevelFollowsScore(score: nat, level: nat)
    requires level == 1 + score / LevelUpEvery
    ensures (if (score + 1) % LevelUpEvery == 0 then level + 1 else level) == 1 + (score + 1) / LevelUpEvery
  {
  }

  lemma TapKeepsValid(s: Session, i: nat, r: nat)
    requires Valid(s) && r < BlockCount(s.level)
    ensures Valid(Tap(s, i, r))
  {
    if !s.gameOver && s.started {
      if i == s.correctId {
        LevelFollowsScore(s.score, s.level);
      } else {
        LoseLifeKeepsValid(StartHum(s), r);
      }
    }
  }

  lemma TapKeepsFair(s: Session, i: nat, r: nat)
    requires Fair(s) && r < BlockCount(s.level)
    ensures Fair(Tap(s, i, r))
  {
    if !s.gameOver && s.started {
      if i == s.correctId {
        LevelFollowsScore(s.score, s.level);
        BlockCountMonotone(s.level, Tap(s, i, r).level);
      } else {
        LoseLifeKeepsFair(StartHum(s), r);
      }
    }
  }

  /** Whatever grid the timeout captured, the delayed hit step keeps Valid. */
  lemma FinishHitKeepsValid(s: Session, bound: nat, r: nat)
    requires Valid(s) && r < bound <= MaxBlocks
    ensures Valid(FinishHit(s, bound, r))
    ensures FinishHit(s, bound, r).heat == 0 && FinishHit(s, bound, r).correctId < bound
    ensures FinishHit(s, bound, r).flash == NoFlash
  {
  }

  /** A delayed hit step whose captured grid fits the current one keeps Fair. */
  lemma FinishHitKeepsFair(s: Session, bound: nat, r: nat)
    requires Fair(s) && r < bound <= BlockCount(s.level)
    ensures Fair(FinishHit(s, bound, r))
    ensures FinishHit(s, bound, r).heat == 0 && FinishHit(s, bound, r).correctId < bound
    ensures FinishHit(s, bound, r).flash == NoFlash
  {
  }

  /** TRY AGAIN yields a fresh run on the start screen, with the hum off, and (corrected)
      the coin on a visible cell. */
  lemma RestartEffect(s: Session, r: nat)
    requires r < BlockCount(1)
    ensures var t := Restart(s, r);
      && !t.started && t.score == 0 && t.level == 1 && t.lives == MaxLives
      && !t.gameOver && !t.hum && t.heat == 0
      && Fair(t)
  {
  }

  /** TRY AGAIN as written yields the same fresh run and keeps Valid, but it only places the coin
      within the grid of the level the game ended at. */
  lemma RestartAsWrittenEffect(s: Session, r: nat)
    requires Valid(s) && r < BlockCount(s.level)
    ensures var t := RestartAsWritten(s, r);
      && !t.started && t.score == 0 && t.level == 1 && t.lives == MaxLives
      && !t.gameOver && !t.hum && t.heat == 0
      && Valid(t)
      && t.correctId < BlockCount(s.level)
  {
  }

  /** As written, TRY AGAIN after a game that ended at level 5 can hide the coin: with draw 9 the
      coin sits in slot 9, but the restarted grid shows only slots 0..5, and pressing START
      does not reshuffle. */
  lemma RestartAsWrittenHidesCoin()
    ensures var ended := Session(true, 17, 5, 0, true, 2, 0, MissFlash, true, false);
      && Valid(ended) && Fair(ended)
      && var t := Start(RestartAsWritten(ended, 9));
      && Valid(t) && t.started && !t.gameOver
      && t.correctId >= BlockCount(t.level)
  {
  }

  // ---------------------------------------------------------------------------
  // Runs of the state machine

  /** The inputs the game reacts to: a button, a timer callback or a tap. Draws stand for
      `Math.random()` scaled by the block count. */
  datatype Event =
    | StartPressed
    | Tick(r: nat)
    | Tapped(i: nat, r: nat)
    | HitTimeout(bound: nat, r: nat)
    | FlashTimeout
    | ShakeTimeout
    | RestartPressed(r: nat)

  /** Which TRY AGAIN the machine uses: the program's, or the corrected one. */
  datatype Build = AsWritten | Corrected

  /** Whether the event can occur: a tap only lands on a cell the grid shows, and the draws an
      event carries lie in the range its handler draws from. A hit
      timeout carries the block count it captured: as written this can be any grid up to
      the twelve slots (an earlier game's, after a quick TRY AGAIN); the corrected machine
      admits only a grid within the current one. */
  predicate Enabled(s: Session, e: Event, b: Build)
  {
    match e
    case StartPressed => true
    case Tick(r) => r < BlockCount(s.level)
    case Tapped(i, r) => i < BlockCount(s.level) && r < BlockCount(s.level)
    case HitTimeout(bound, r) =>
      r < bound && (if b == AsWritten then bound <= MaxBlocks else bound <= BlockCount(s.level))
    case FlashTimeout => true
    case ShakeTimeout => true
    case RestartPressed(r) => if b == AsWritten then r < BlockCount(s.level) else r < BlockCount(1)
  }

  /** The handler an event runs. */
  function Step(s: Session, e: Event, b: Build): Session
    requires Enabled(s, e, b)
  {
    match e
    case StartPressed => Start(s)
    case Tick(r) => HeatTick(s, r)
    case Tapped(i, r) => Tap(s, i, r)
    case HitTimeout(bound, r) => FinishHit(s, bound, r)
    case FlashTimeout => ClearFlash(s)
    case ShakeTimeout => EndShake(s)
    case RestartPressed(r) => if b == AsWritten then RestartAsWritten(s, r) else Restart(s, r)
  }

  /** Every handler of the program, and of the corrected machine, keeps the session Valid. */
  lemma StepKeepsValid(s: Session, e: Event, b: Build)
    requires Valid(s) && Enabled(s, e, b)
    ensures Valid(Step(s, e, b))
  {
    match e
    case StartPressed =>
    case Tick(r) => HeatTickKeepsValid(s, r);
    case Tapped(i, r) => TapKeepsValid(s, i, r);
    case HitTimeout(bound, r) => FinishHitKeepsValid(s, bound, r);
    case FlashTimeout =>
    case ShakeTimeout =>
    case RestartPressed(r) =>
      if b == AsWritten { RestartAsWrittenEffect(s, r); } else { RestartEffect(s, r); }
  }

  /** Every handler of the corrected machine keeps the session Fair. */
  lemma StepKeepsFair(s: Session, e: Event)
    requires Fair(s) && Enabled(s, e, Corrected)
    ensures Fair(Step(s, e, Corrected))
  {
    match e
    case StartPressed => StartKeepsFair(s);
    case Tick(r) => HeatTickKeepsFair(s, r);
    case Tapped(i, r) => TapKeepsFair(s, i, r);
    case HitTimeout(bound, r) => FinishHitKeepsFair(s, bound, r);
    case FlashTimeout =>
    case ShakeTimeout =>
    case RestartPressed(r) => RestartEffect(s, r);
  }

  /** Whether every event of `es`, in turn, is enabled. */
  predicate Runnable(s: Session, es: seq<Event>, b: Build)
    decreases |es|
  {
    es == [] || (Enabled(s, es[0], b) && Runnable(Step(s, es[0], b), es[1..], b))
  }

  /** The session after handling the events of `es` in order. */
  function Run(s: Session, es: seq<Event>, b: Build): Session
    requires Runnable(s, es, b)
    decreases |es|
  {
    if es == [] then s else Run(Step(s, es[0], b), es[1..], b)
  }

  /** Every run of the program keeps Valid: lives stay in [0, 3], the level stays 1 + score / 4,
      game over holds exactly at 0 lives, the hum only plays in a live run, and the coin stays
      among the twelve slots. */
  lemma {:induction false} RunKeepsValid(s: Session, es: seq<Event>, b: Build)
    requires Valid(s) && Runnable(s, es, b)
    ensures Valid(Run(s, es, b))
    decreases |es|
  {
    if es != [] {
      StepKeepsValid(s, es[0], b);
      RunKeepsValid(Step(s, es[0], b), es[1..], b);
    }
  }

  /** Every session the program reaches from mounting is Valid. */
  lemma ReachableIsValid(r: nat, es: seq<Event>)
    requires r < BlockCount(1) && Runnable(Initial(r), es, AsWritten)
    ensures Valid(Run(Initial(r), es, AsWritten))
  {
    RunKeepsValid(Initial(r), es, AsWritten);
  }

  /** Every run of the corrected machine keeps Fair: Valid, and the coin on a visible cell. */
  lemma {:induction false} RunKeepsFair(s: Session, es: seq<Event>)
    requires Fair(s) && Runnable(s, es, Corrected)
    ensures Fair(Run(s, es, Corrected))
    decreases |es|
  {
    if es != [] {
      StepKeepsFair(s, es[0]);
      RunKeepsFair(Step(s, es[0], Corrected), es[1..]);
    }
  }

  /** Every session the corrected machine reaches from mounting is Fair. */
  lemma ReachableIsFair(r: nat, es: seq<Event>)
    requires r < BlockCount(1) && Runnable(Initial(r), es, Corrected)
    ensures Fair(Run(Initial(r), es, Corrected))
  {
    RunKeepsFair(Initial(r), es);
  }

  // ---------------------------------------------------------------------------
  // Timing of the heat meter

  /** `n` consecutive heat ticks with the same draw. */
  function Ticks(s: Session, n: nat, r: nat): (t: Session)
    requires r < BlockCount(s.level)
    ensures t.level == s.level
  {
    if n == 0 then s else HeatTick(Ticks(s, n - 1, r), r)
  }

  /** With no tap, a live round with an empty meter survives IdleTicks(level) - 1 ticks untouched
      but for the meter. */
  lemma {:induction false} IdleTicksKeepRound(s: Session, n: nat, r: nat)
    requires s.started && !s.gameOver && r < BlockCount(s.level)
    requires s.heat == 0 && n < IdleTicks(s.level)
    ensures Ticks(s, n, r) == s.(heat := n)
  {
    if n > 0 {
      IdleTicksKeepRound(s, n - 1, r);
    }
  }

  /** ... and the IdleTicks(level)-th tick costs a life: the meter fills in exactly idleMs / 100 ticks. */
  lemma IdleWindowCostsLife(s: Session, r: nat)
    requires s.started && !s.gameOver && r < BlockCount(s.level) && s.heat == 0
    ensures Ticks(s, IdleTicks(s.level), r) == LoseLife(s, r)
  {
    var k := IdleTicks(s.level);
    IdleTicksKeepRound(s, k - 1, r);
    assert Ticks(s, k, r) == HeatTick(s.(heat := k - 1), r);
  }

  /** Once the game is over, no tick changes anything. */
  lemma {:induction false} NoTicksAfterGameOver(s: Session, n: nat, r: nat)
    requires s.gameOver && r < BlockCount(s.level)
    ensures Ticks(s, n, r) == s
  {
    if n > 0 {
      NoTicksAfterGameOver(s, n - 1, r);
    }
  }

  /** On the last life, letting the meter fill ends the game with 0 lives and the hum stopped,
      and no further tick fires. */
  lemma LastLifeRunsOut(s: Session, r: nat, more: nat)
    requires Fair(s) && s.started && !s.gameOver && s.lives == 1 && s.heat == 0
    requires r < BlockCount(s.level)
    ensures var t := Ticks(s, IdleTicks(s.level), r);
      t.lives == 0 && t.gameOver && !t.hum && Ticks(t, more, r) == t
  {
    IdleWindowCostsLife(s, r);
    NoTicksAfterGameOver(Ticks(s, IdleTicks(s.level), r), more, r);
  }

  /** Four correct taps from a fresh start reach score 4 and level 2, with the level-2 grid,
      window and decoy rate. */
  lemma FourHitsReachLevelTwo()
    ensures var s0 := Start(Initial(3));
      var s1 := FinishHit(Tap(s0, 3, 0), 6, 1);
      var s2 := FinishHit(Tap(s1, 1, 0), 6, 5);
      var s3 := FinishHit(Tap(s2, 5, 0), 6, 0);
      var s4 := Tap(s3, 0, 0);
      && s4.score == 4 && s4.level == 2 && s4.lives == MaxLives && s4.hum
      && BlockCount(s4.level) == 6 && IdleMs(s4.level) == 3400 && DecoyHundredths(s4.level) == 39
  {
  }
}
