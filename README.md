# DNA Invaders — a verified model of the gameplay state machine

DNA Invaders is a browser arcade game made of one scene, `DNAInvaders`, in
`game.js`. DNA bases (A, T, C, G) fall down the screen. The player presses the
complementary base to destroy them: T destroys a falling A, A destroys T, G destroys C
and C destroys G. Every destroyed base is worth 10 points. A base key that destroys
nothing costs 5 points. The falling speed of new bases rises by 20 for every 50 points.
The game ends when a base falls past the bottom line, y = 600.

This project models that scene's state and its four engine callbacks in Dafny.
It proves what each callback does to the state:

- `Nucleotides`: the bases, the complement table `baseMap`, and how a key name is
  read after upper-casing.
- `Decimal` and `Clock`: the `m:ss` rendering of elapsed seconds. This includes a
  decoder, with a proof that every rendering decodes back to the counter.
- `Rules`: the game constants, the falling-base record and the speed ramp. It also
  holds the filter and count that describe a key press, and the loss condition.
  It also models, as written, the scan over the engine's live child array (see
  Findings).
- `Invaders`: class `Session`. Its fields are the ones the scene updates in place:
  `score`, `timeElapsed`, `baseSpeed`, `gameOver`, the falling `bases`, and the
  time text. Its methods are `SpawnBase`, `HandleInput` (with its scan
  `DestroyMatching`), `UpdateTimer` and `Update`. `Fall` stands in for the engine's
  physics. `ExampleMiss`, `ExampleMatch` and `ExampleGameOver` are client methods that drive a
  session through the callbacks and assert what the contracts imply.

Randomness becomes parameters: `SpawnBase(kind, x)` receives the base type and the
x position that the scene draws at random. The engine's timers and keyboard
listener become plain method calls.

Four details of the code are easy to miss; this model follows the code:

- The speed is not clamped at a minimum. It is 0 for scores -250 to -201 and
  negative from -251 down (`Rules.SpeedExamples`).
- A base exactly at y = 600 does not end the game. The comparison is strict (`> 600`).
- The per-frame update only recomputes the spawn speed and checks the floor.
  Positions are moved by the engine's physics, and each base keeps the velocity it
  was spawned with.
- Bases form an ordered sequence, not a set with identities. The key handler
  returns nothing.

## Model

| member | source | states |
|---|---|---|
| Nucleotides.Letter | game.js:83 | every base is drawn with one of the letters A, T, C, G |
| Nucleotides.Complement | game.js:13-18 | the table is total on the four bases and no base is its own complement |
| Nucleotides.ComplementInvolutive | game.js:13-18 | the table is its own inverse: the complement of the complement is the base |
| Nucleotides.ComplementInjective | game.js:13-18 | distinct bases have distinct complements |
| Nucleotides.UpperChar | game.js:117 | upper-cases one character: a-z become A-Z, every other character is kept |
| Nucleotides.ToUpper | game.js:117 | `toUpperCase` on the key name: the same length, each character upper-cased |
| Nucleotides.ParseKey | game.js:117-118 | a key name is a base exactly when it is one character whose upper-case form is that base's letter |
| Nucleotides.ParseKeyAccepts | game.js:117-118 | exactly the eight names a, A, t, T, c, C, g, G are base keys; every other key is ignored |
| Decimal.NatToString | game.js:167 | the decimal digits of a whole number, most significant first, as `${minutes}` renders it |
| Decimal.NatToStringDigits | game.js:167 | the rendered minutes are a non-empty run of digits with no leading zero |
| Decimal.ParseNatToString | game.js:167 | reading the rendered digits back gives the number |
| Clock.PaddedSeconds | game.js:166-167 | the seconds below a minute, with a '0' in front when below 10 |
| Clock.FormatTime | game.js:165-167 | the time text for t seconds: minutes t/60, a colon, then the padded seconds t%60 |
| Clock.PaddedSecondsRoundTrip | game.js:166-167 | seconds below 60 are always two digits, zero-padded below 10, and read back as the seconds |
| Clock.FormatTimeShape | game.js:165-167 | the time text has the shape m:ss, and its minutes have no leading zero |
| Clock.FormatTimeRoundTrip | game.js:165-167 | the text decodes back to the counter: minutes t/60, seconds t%60 below 60, minutes*60 + seconds == t |
| Clock.FormatTimeInjective | game.js:165-167 | distinct counters are shown as distinct text |
| Clock.FormatTimeExamples | game.js:165-167 | 0 s, 9 s, 65 s and 600 s are shown as 0:00, 0:09, 1:05 and 10:00 |
| Rules.Destroys | game.js:122 | a key destroys a falling base when `baseMap` of the base's type equals the key |
| Rules.DestroysKind | game.js:122 | key k destroys a base exactly when the base's type is the complement of k |
| Rules.SpeedFor | game.js:173 | the spawn speed for a score: 100 + floor(score/50)*20, with no clamping |
| Rules.SpeedBand | game.js:173 | for a score in [50k, 50k+50) the speed is 100 + 20k, for negative k too (floor division, no clamping) |
| Rules.SpeedMonotone | game.js:173 | a higher score never gives a lower speed |
| Rules.SpeedExamples | game.js:173 | speed 100 at scores 0 and 49, 120 at 50, 140 at 100, 80 at -5, 0 at -201 (as for every score from -250 to -201) and negative at -251 |
| Rules.Survivors | game.js:121-127 | the bases a key press leaves, in their order: those the key does not destroy |
| Rules.MatchCount | game.js:121-135 | how many bases a key press destroys, which is the number of +10 score steps |
| Rules.SurvivorsSound | game.js:121-127 | every base left after a press was there before and is not matched by the key |
| Rules.SurvivorsCount | game.js:121-135 | each base is either destroyed or kept: survivors plus destroyed equals the bases before |
| Rules.SurvivorsMultiset | game.js:121-127 | a press removes every occurrence of a matching base and keeps every occurrence of any other base |
| Rules.SurvivorsAppend | game.js:121-127 | the kept bases stay in their original order: the filter commutes with concatenation |
| Rules.SurvivorsAllIffNoMatch | game.js:137-140 | the bases are left exactly as they were if and only if the press destroyed none |
| Rules.MatchCountZeroIff | game.js:121-137 | a press destroys nothing exactly when no base is matched by the key |
| Rules.KeyScoreDelta | game.js:130-139 | the score change is positive exactly when something was destroyed: 10 per destroyed base when some were, exactly -5 when none were, so the two branches never both apply |
| Rules.PastFloor | game.js:175-177 | the loss condition: some base has y strictly greater than 600 |
| Rules.LiveScan | game.js:121-127 | the scan as written over a live array keeps only bases that were there before |
| Rules.LiveScanSkipsNeighbour | game.js:121-127 | with two adjacent matching bases, the as-written scan destroys one and the intended scan destroys both |
| Invaders.TimeLabel | game.js:162-168 | the time text after t seconds: "Time: 0s" before the first tick (game.js:56), then "Time: " followed by m:ss (game.js:168) |
| Invaders.Session.constructor | game.js:2-20 | a new session has score 0, time 0, speed 100, no bases, is not over and shows "Time: 0s" |
| Invaders.Session.SpawnBase | game.js:80-112 | after game over nothing changes; otherwise exactly one base is appended, of the given type and x, at y = -50, with the velocity stored in baseSpeed, and nothing else changes |
| Invaders.Session.HandleInput | game.js:114-144 | after game over or for a non-base key nothing changes; otherwise the bases become the key's survivors in order and the score changes by +10 per destroyed base; when a base key destroys none, the bases stay as they were and the score drops by exactly 5 |
| Invaders.Session.DestroyMatching | game.js:119-135 | the scan leaves the survivors, adds 10 per destroyed base, and reports whether any base was destroyed |
| Invaders.Session.UpdateTimer | game.js:162-169 | after game over nothing changes; otherwise the counter rises by exactly 1 and the text becomes "Time: " followed by m:ss |
| Invaders.Session.Update | game.js:170-187 | after game over nothing changes; otherwise the speed becomes 100 + floor(score/50)*20 and gameOver holds exactly when some base has y > 600 |
| Invaders.Session.Fall | game.js:104-106 | stand-in for the engine: each base moves by its velocity times the elapsed whole seconds, and nothing else changes |

## Left out

- `preload` (game.js:22-31) loads remote images. It is pure I/O.
- `create` (game.js:33-78) sets up the background scaling, the player sprite and the text objects, and registers the timers and the keyboard listener. This is engine wiring. The callbacks are modelled as method calls, and only the initial time text ("Time: 0s", game.js:56) is kept.
- The random choices in `spawnBase` (game.js:84-85) are parameters of `SpawnBase`. The range 50..750 of x is its precondition.
- Sprites, the base's text label, `createExplosion` and the camera shake (game.js:87-102, 124, 141, 146-161) are cosmetic.
- The score text, the "GAME OVER" text and `spawnTimer.remove()` (game.js:131, 140, 178-183) are presentation or engine calls. The score and the `gameOver` flag carry the state.
- Invaders.Session.Fall: the engine's arcade physics moves bases by velocity times a fractional frame time, in floating point. The stand-in uses integer positions and whole seconds. Like the engine, it keeps moving bases after the game is over.
- Nucleotides.ParseKey: models only the ASCII upper-casing of `toUpperCase`. No other Unicode case mapping yields one of the letters A, T, C, G.
- Decimal.NatToStringDigits: JavaScript switches to exponent notation for numbers of 10^21 and above. Elapsed minutes never get that large, so this is not modelled.
- Object identity of bases is not modelled: a base is its value and its place in the sequence.
- The Phaser game configuration and the DOM lookup (game.js:190-209) are not part of the scene's logic.

## Findings

| source | as written | input that shows it | evidently intended | confidence | as-written member | corrected member |
|---|---|---|---|---|---|---|
| game.js:121-127 | `forEach` walks `this.bases.getChildren()` while `destroy()` removes each destroyed base from that same array, so the walk skips the base right after each destroyed one | two adjacent falling A bases and the key T: one A is destroyed for +10 and the other stays | every matching base is destroyed, 10 points each (+20 here) | medium; not executed; depends on the engine's group returning its live child array, which game.js does not show | Rules.LiveScan, Rules.LiveScanSkipsNeighbour | Rules.Survivors with Rules.SurvivorsMultiset, used by Invaders.Session.HandleInput |
