# Block Miner game engine in Dafny

This project models the game engine in the `GameSandbox` component of Block Miner. In this
tap-reaction game the player must find the one real coin among decoy cells before a heat meter
fills up. The model has three modules:

- `Difficulty` (difficulty.dfy) holds the values the component derives from `level`: the number
  of visible cells (`blockCount`), the idle window (`idleMs`), the cell size (`blockSize`) and the
  decoy rate (`decoyChance`). It also holds the per-tick meter step.
- `Engine` (engine.dfy) describes one game session as a record (`Session`). Each handler is a pure
  transition: mount, START MINING, the hum start and stop, reshuffle, life loss, the heat-interval
  tick, tap, the delayed part of a hit, the flash and shake timeouts, and TRY AGAIN. TRY AGAIN
  comes twice: `RestartAsWritten` is the program's, and `Restart` is corrected (see Findings).
  The module also has the invariants these transitions keep. `Run` applies a sequence of
  `Event`s, either with the program's handlers (`AsWritten`) or with the corrected TRY AGAIN
  (`Corrected`). `ReachableIsValid` proves that every session the program reaches from mounting
  keeps `Valid`: lives in [0, 3], level == 1 + score / 4, game over exactly at 0 lives, the hum
  only in a live run, and the coin among the twelve slots. `ReachableIsFair` proves that the
  corrected machine also keeps the coin on a visible cell.
- `Sandbox` (sandbox.dfy) has the class `GameSandbox`. Its fields are the component's state cells
  and the "hum oscillator present" flag. Its methods update those fields in place, in the order
  the handlers do. Each method's postcondition says its new state is the matching `Engine`
  transition applied to its old state. The class invariant is `Engine.Valid`. `Restart` is the
  program's TRY AGAIN and `RestartCorrected` is the corrected one.

Modelling choices:

- **Randomness.** `Math.random()` becomes a caller-supplied draw `r`, with `r < bound`.
- **Heat.** The meter is an integer count of 100 ms ticks since the last reshuffle. A tick fills
  the meter when the count reaches `idleMs / 100`. `Difficulty.MeterFullAfterIdleTicks` proves,
  in exact arithmetic, that this is the moment the source's meter `h + 100 / (idleMs / 100)`
  reaches 100.
- **Decoy rate.** It is kept as whole hundredths, `min(25 + 7 * level, 80)`.
- **Delayed reshuffle.** The 90 ms reshuffle after a hit is its own step (`FinishHit`). Its bound
  is the block count of the render that scheduled it.

## Model

| member | source | states |
|---|---|---|
| Difficulty.BlockCount | src/views/home/index.tsx:132 | the cell count is 6, 9 or 12, never above the 12 grid slots; it is 6 exactly below level 3 and 12 exactly from level 5 |
| Difficulty.BlockCountMonotone | src/views/home/index.tsx:132 | the cell count never decreases as the level rises |
| Difficulty.IdleMs | src/views/home/index.tsx:133 | the idle window is between 1800 and 4000 ms and a multiple of 100; above the floor it is 4000 - 300 * level |
| Difficulty.IdleMsMonotone | src/views/home/index.tsx:133 | the idle window never grows as the level rises |
| Difficulty.IdleTicks | src/views/home/index.tsx:174-176 | the number of 100 ms ticks in the window is exact (times 100 gives idleMs); it is between 18 and 40, and at most 37 from level 1 on |
| Difficulty.BlockSize | src/views/home/index.tsx:135-136 | the cell size is one of 72/60/52/44; it is 72 exactly below level 3, 60 exactly for levels 3-5, 52 exactly for levels 6-8 and 44 exactly from level 9 |
| Difficulty.BlockSizeMonotone | src/views/home/index.tsx:135-136 | the cell size never grows as the level rises |
| Difficulty.DecoyChance | src/views/home/index.tsx:138 | the decoy probability lies in (0.25, 0.8] for every level from 1 on |
| Difficulty.DecoyHundredths | src/views/home/index.tsx:138 | the decoy rate in hundredths lies in [25, 80]; below level 8 (and whenever below the cap) it is 25 + 7 * level, and from level 8 on it is 80 |
| Difficulty.DecoyHundredthsIsChance | src/views/home/index.tsx:138 | the hundredths divided by 100 equal min(0.25 + 0.07 * level, 0.8) exactly in real arithmetic |
| Difficulty.DecoyMonotone | src/views/home/index.tsx:138 | the decoy rate never decreases as the level rises |
| Difficulty.HeatStep | src/views/home/index.tsx:176 | one tick's step times the number of ticks in the window is exactly 100 |
| Difficulty.MeterFullAfterIdleTicks | src/views/home/index.tsx:176-177 | n steps from an empty meter reach 100 if and only if n >= idleMs / 100, so the tick count abstraction fires exactly when the meter does |
| Engine.Initial | src/views/home/index.tsx:64-73 | the mounted session (the initial cells, plus the mount-time reshuffle over the 6 cells of level 1 at lines 188-190) is not started, has score 0, level 1, 3 lives, no game over, and satisfies every invariant, including the coin on a visible cell |
| Engine.Start | src/views/home/index.tsx:316 | START MINING leaves the run started, changes nothing on a started run, and keeps Valid |
| Engine.StartHum | src/views/home/index.tsx:112-124 | afterwards the hum is present; with the hum already present nothing changes |
| Engine.StopHum | src/views/home/index.tsx:126-129 | afterwards no hum is present; without a hum nothing changes |
| Engine.Reshuffle | src/views/home/index.tsx:141-144 | the new coin lies in [0, bound) and the meter is empty |
| Engine.LoseLife | src/views/home/index.tsx:151-168 | one life less, clamped at 0; game over exactly when it was already over or the last life went; at 0 lives the hum is off; the meter is empty and the coin lies in the current grid; score, level and started are unchanged |
| Engine.HeatTick | src/views/home/index.tsx:171-182 | no change unless the run is started and not over; after a live tick the meter is below full for the level; level and score never change; lives stay or drop by one (or to 0) |
| Engine.Tap | src/views/home/index.tsx:193-215 | no change before the start or after game over; a live tap on the coin adds 1 to the score and keeps the lives; a live tap elsewhere keeps the score and loses a life, clamped at 0 |
| Engine.FinishHit | src/views/home/index.tsx:202-205 | the coin lies in [0, bound) for the grid the timeout captured; the meter is empty and the flash cleared |
| Engine.ClearFlash | src/views/home/index.tsx:156 | the flash is cleared and Valid is kept |
| Engine.EndShake | src/views/home/index.tsx:148 | the shake ends and Valid is kept |
| Engine.RestartAsWritten | src/views/home/index.tsx:217-225 | the program's TRY AGAIN: not started, score 0, level 1, 3 lives, no game over, no hum; the coin only lies within the grid of the level the game ended at |
| Engine.Restart | src/views/home/index.tsx:217-225 | the corrected TRY AGAIN: the same reset, with the coin within the level-1 grid |
| Engine.StartKeepsFair | src/views/home/index.tsx:316 | START MINING marks the run started, keeps the invariants, and changes nothing on a started run |
| Engine.StartHumIdempotent | src/views/home/index.tsx:112-124 | after startHum the hum is present; a second startHum, or one with the hum already present, changes nothing |
| Engine.StopHumClears | src/views/home/index.tsx:126-129 | stopHum leaves no hum and touches nothing else |
| Engine.ReshuffleResets | src/views/home/index.tsx:141-144 | after a reshuffle the coin lies in [0, bound), the meter is empty, and no other field changes |
| Engine.LoseLifeEffect | src/views/home/index.tsx:151-168 | life loss takes one life but never goes below 0; reaching 0 sets game over and stops the hum; otherwise game over and hum are unchanged; it sets the miss flash and shake, and reshuffles even when the game ends |
| Engine.LoseLifeKeepsValid | src/views/home/index.tsx:151-168 | life loss in a started run keeps Valid |
| Engine.LoseLifeKeepsFair | src/views/home/index.tsx:151-168 | life loss in a started run keeps Fair (Valid, and the coin on a visible cell) |
| Engine.HeatTickEffect | src/views/home/index.tsx:171-182 | a tick changes nothing unless the run is started and not over; otherwise it adds one tick, or on filling the window it is life loss with an empty meter; after a live tick the meter is below full for the current level |
| Engine.HeatTickKeepsValid | src/views/home/index.tsx:171-182 | a tick keeps Valid |
| Engine.HeatTickKeepsFair | src/views/home/index.tsx:171-182 | a tick keeps Fair |
| Engine.TapIgnoredOrMiss | src/views/home/index.tsx:193-214 | a tap before the start or after game over changes nothing; a live tap on any other cell than the coin is life loss after starting the hum |
| Engine.TapHitEffect | src/views/home/index.tsx:196-211 | a correct tap raises the score by exactly 1, and the level by exactly 1 if and only if the new score is a multiple of 4; it starts the hum and sets the hit flash; lives, game over, coin and meter are unchanged |
| Engine.LevelFollowsScore | src/views/home/index.tsx:207-210 | the level-up rule carries level == 1 + score / 4 from one score to the next |
| Engine.TapKeepsValid | src/views/home/index.tsx:193-215 | a tap keeps Valid, including level == 1 + score / 4 after a level-up |
| Engine.TapKeepsFair | src/views/home/index.tsx:193-215 | a tap keeps Fair, including the coin on a visible cell after a level-up |
| Engine.FinishHitKeepsValid | src/views/home/index.tsx:202-205 | whatever grid (up to 12 cells) the timeout captured, the delayed hit step clears the flash, empties the meter, puts the coin in [0, bound) and keeps Valid |
| Engine.FinishHitKeepsFair | src/views/home/index.tsx:202-205 | when the captured grid fits the current one, the delayed hit step keeps Fair |
| Engine.RestartAsWrittenEffect | src/views/home/index.tsx:217-225 | the program's TRY AGAIN gives a run that is not started, with score 0, level 1, 3 lives, no game over, no hum and an empty meter; Valid holds, and the coin lies within the grid of the level the game ended at |
| Engine.RestartEffect | src/views/home/index.tsx:217-225 | TRY AGAIN (corrected) gives a run that is not started, with score 0, level 1, 3 lives, no game over, no hum and an empty meter, and every invariant holds, including the coin on a visible cell |
| Engine.RestartAsWrittenHidesCoin | src/views/home/index.tsx:217-225 | TRY AGAIN as written, after a game that ended at level 5, with draw 9, and then START: the run is live but the coin is not on any of the 6 visible cells |
| Engine.StepKeepsValid | src/views/home/index.tsx:141-225 | every handler, the program's TRY AGAIN and stale hit timeouts included, keeps Valid when the event can occur: taps on shown cells only, draws in their handler's range |
| Engine.StepKeepsFair | src/views/home/index.tsx:141-225 | every handler of the corrected machine keeps Fair |
| Engine.RunKeepsValid | src/views/home/index.tsx:141-225 | every sequence of handled events keeps Valid: lives in [0, 3], level == 1 + score / 4, game over exactly at 0 lives, game over only in a started run, the hum only in a live run, the coin among the 12 slots |
| Engine.ReachableIsValid | src/views/home/index.tsx:64-225 | every session the program reaches from mounting, with its own TRY AGAIN, satisfies Valid |
| Engine.RunKeepsFair | src/views/home/index.tsx:141-225 | every sequence of events handled by the corrected machine keeps Fair: Valid, and the coin on a visible cell |
| Engine.ReachableIsFair | src/views/home/index.tsx:64-225 | every session the corrected machine reaches from mounting satisfies Fair |
| Engine.Ticks | src/views/home/index.tsx:174-183 | repeated ticks never change the level |
| Engine.IdleTicksKeepRound | src/views/home/index.tsx:174-181 | with no tap, a live round with an empty meter survives idleMs / 100 - 1 ticks; only the tick count changes |
| Engine.IdleWindowCostsLife | src/views/home/index.tsx:174-180 | the idleMs / 100-th tick with no tap is exactly one life loss |
| Engine.NoTicksAfterGameOver | src/views/home/index.tsx:171-172 | after game over, no number of ticks changes anything |
| Engine.LastLifeRunsOut | src/views/home/index.tsx:158-163 | on the last life, a full idle window leaves 0 lives, game over and no hum, and no later tick changes anything |
| Engine.FourHitsReachLevelTwo | src/views/home/index.tsx:198-211 | from a fresh start, four correct taps give score 4 and level 2, with 6 cells, a 3400 ms window and a decoy rate of 39 hundredths |
| Sandbox.GameSandbox.constructor | src/views/home/index.tsx:64-73 | mounting gives the state cells of `Engine.Initial`, including the mount-time reshuffle of lines 188-190, and establishes Valid and Fair |
| Sandbox.GameSandbox.Start | src/views/home/index.tsx:316 | START MINING performs `Engine.Start` in place and keeps Valid, and Fair when it held |
| Sandbox.GameSandbox.StartHum | src/views/home/index.tsx:112-124 | called only in a live run, as after the tap guard of line 194; performs `Engine.StartHum` in place, returns early when the hum is present, and keeps Valid (and Fair when it held) |
| Sandbox.GameSandbox.StopHum | src/views/home/index.tsx:126-129 | performs `Engine.StopHum` in place and keeps Valid (and Fair when it held) |
| Sandbox.GameSandbox.Reshuffle | src/views/home/index.tsx:141-144 | draws over a grid of at most 12 cells; performs `Engine.Reshuffle` in place: the coin is in [0, bound), the meter is 0, Valid is kept, and Fair holds when the grid fits the current one |
| Sandbox.GameSandbox.LoseLife | src/views/home/index.tsx:151-168 | called only in a live run, from a tick or a tap; performs `Engine.LoseLife` in place and keeps Valid (and Fair when it held) |
| Sandbox.GameSandbox.HeatTick | src/views/home/index.tsx:174-182 | performs `Engine.HeatTick` in place, keeps Valid, and Fair when it held; a live tick leaves the meter below full |
| Sandbox.GameSandbox.Tap | src/views/home/index.tsx:193-215 | performs `Engine.Tap` in place and keeps Valid, and Fair when it held |
| Sandbox.GameSandbox.FinishHit | src/views/home/index.tsx:202-205 | performs `Engine.FinishHit` in place for any captured grid up to 12 cells and keeps Valid, and Fair when it held and the captured grid fits the current one |
| Sandbox.GameSandbox.ClearFlash | src/views/home/index.tsx:156 | clears the flash in place and keeps Valid, and Fair when it held |
| Sandbox.GameSandbox.EndShake | src/views/home/index.tsx:148 | ends the shake in place and keeps Valid, and Fair when it held |
| Sandbox.GameSandbox.Restart | src/views/home/index.tsx:217-225 | the program's TRY AGAIN: performs `Engine.RestartAsWritten` in place; not started, score 0, level 1, 3 lives, no game over, no hum, Valid kept, the coin within the grid of the level the game ended at |
| Sandbox.GameSandbox.RestartCorrected | src/views/home/index.tsx:217-225 | the corrected TRY AGAIN: performs `Engine.Restart` in place; from any Valid state, the same reset, with Valid and Fair established |

## Left out

- Web Audio (`getCtx`, `playHit`, `playBuzz`, oscillator and gain setup) is a browser API. Only the "hum oscillator present" flag is modelled.
- `Math.random()` is replaced by a caller-supplied draw. The per-render decoy roll on line 262 is not modelled; only its probability (`decoyChance`) is.
- Difficulty.DecoyChance: is computed in exact real arithmetic. The source computes `0.25 + level * 0.07` in IEEE doubles, whose rounding is not modelled. `DecoyHundredthsIsChance` is exact only against the real-valued expression.
- Heat as a floating-point sum is not modelled. The tick count is exact in real arithmetic, but float rounding of `100 / (idleMs / 100)` could fire one tick late.
- Timing is not modelled. The model has no `setTimeout`/`setInterval` durations, and it does not create, tear down or re-create the interval when `idleMs` changes. The interval exists exactly while the run is started and not over. The 90 ms hit reshuffle and the flash and shake resets are separate steps that may come in any order.
- Engine.StepKeepsFair: the corrected machine admits a hit timeout only when its captured grid fits the current one. The program never cancels that timeout. A TRY AGAIN within 90 ms of a hit at level 5 or above would let it draw over 12 cells at level 1. The corrected machine does not model that order. The program's machine (`StepKeepsValid`, `RunKeepsValid`) admits it and keeps only Valid.
- A tick can arrive between a level-up hit and its delayed reshuffle. In the model it is then measured against the new, shorter window. In the source the interval is re-created on the level change, so its first tick comes after the reshuffle.
- Engine.Valid: bounds the meter only by the level-1 window (37 ticks). The reason is the tick between a level-up and its reshuffle described above. `HeatTickEffect` gives the per-level bound after every live tick.
- React scheduling (batched updates, state-updater callbacks, stale closures) is not modelled. Each handler is one atomic transition on the current state. The stale `blockCount` in the hit timeout is kept as `FinishHit`'s `bound` argument. The heat interval's closure only differs from the current level at levels 8 and up, where the block count is 12 either way.
- The `HomeView` shell, rendering, styling and the version footer have no game logic.

## Findings

| source | as written | input that shows it | evidently intended | confidence | as-written member | corrected member |
|---|---|---|---|---|---|---|
| src/views/home/index.tsx:217-225 | `restart` sets level 1 but reshuffles with the block count of the level the game ended at, and START does not reshuffle. The first round of the new game can put the real coin in a slot beyond the 6 that level 1 shows (line 259), where it cannot be tapped. | A game over at level 5 with score 17, restart with a draw that gives 9, then START: `correctId` is 9 and only cells 0..5 are shown. | The new coin is drawn from the 6 cells of level 1. | not executed | Engine.RestartAsWrittenHidesCoin | Engine.RestartEffect |
