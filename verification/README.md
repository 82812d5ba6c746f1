# Arcade shooter and shopping list, modelled in Dafny

This project models the two pieces of pure logic in a small React
application:

- the arcade shooter of `src/ShootingGame.jsx`: the round record built by
  `initializeGame` (player, bullets, enemies, last spawn time), the score and
  the phase (`start`, `playing`, `gameOver`), one frame of `gameLoop`
  (bullets rise and leave at the top, enemies descend and leave at the
  bottom, bullet/enemy box collisions score 10 points, an enemy spawns every
  1000 ms, an enemy crossing the player's line ends the round), and the
  phase logic of `handleClick` (start, fire, restart);
- the list operations of `src/Shopping.jsx`: add a trimmed, non-blank name
  with quantity 1, increment and decrement (clamped at zero) by id, remove by
  id, and clear.

Modules:

- `Wrappers` (`wrappers.dfy`): `Option`.
- `ShootingGame` (`shooting_game.dfy`): constants, entities, the bullet pass,
  the enemy pass with collisions, `Step`, `Tick` and `Click`.
- `ShootingGameProofs` (`shooting_game_proofs.dfy`): the invariant of
  reachable games, score conservation, spawn cadence, unreachability of the
  bottom-edge cull while playing, the frozen game-over state, event runs and
  the worked example frames.
- `Shopping` (`shopping.dfy`): trimming and the five list operations.
- `ShoppingProofs` (`shopping_proofs.dfy`): round trips, idempotence,
  totals and non-negativity across any sequence of actions.

One frame is `Tick(game, now, spawnX)`, returning the new game and whether
another animation frame is requested; a click is `Click(game, mouseX)`.
`Date.now()` becomes `now`, `Math.random() * (CANVAS_WIDTH - ENEMY_SIZE)`
becomes `spawnX` with `0 <= spawnX < 570`, and the click column relative to
the canvas is `mouseX`.  Coordinates are `real` (a bullet's x is the click
column minus 2.5).  Score and phase, kept in separate React state in the
source, are fields of one `Game` record beside the `Round`.

Where the model departs from the code:

- The source removes array elements with `splice` while iterating the same
  array with `forEach`.  The bullet and enemy culls are modelled as filters:
  every entity moves, then off-screen ones go.  (The bullet pass as written
  is also modelled, and its divergence exhibited; see Findings.)
- After a hit the source keeps scanning bullets for the same enemy, so a
  second overlapping bullet splices a different enemy at the same index and
  scores again.  The model takes, for each enemy in order, the first unused
  overlapping bullet, removes both and scores 10 once; each bullet and each
  enemy is removed at most once per frame.
- The spawn stays after the collision pass, as in the code, so a fresh enemy
  is neither moved nor hit in its spawn frame.
- An enemy culled at the bottom edge is not hit-tested (the code returns at
  src/ShootingGame.jsx:58), and the model does the same.

## Model

| member | source | states |
|---|---|---|
| ShootingGame.InitialRound | src/ShootingGame.jsx:18-28 | A new round has the player centred horizontally at (290, 370), inside the canvas, with no bullets, no enemies and last spawn time 0. |
| ShootingGame.InitialGame | src/ShootingGame.jsx:14-30 | The component starts in phase start with score 0 and the initial round. |
| ShootingGame.AdvanceBullets | src/ShootingGame.jsx:39-45 | The bullet pass that a frame runs: it never creates a bullet (the result is no longer than the input); what it keeps is stated by the three lemmas below. |
| ShootingGame.AdvanceBulletsAsWritten | src/ShootingGame.jsx:39-45 | The bullet pass as the source writes it, with `splice` inside `forEach` from index i over the starting length; it never creates a bullet. Its divergence is exhibited under Findings. |
| ShootingGame.AdvanceBulletsSound | src/ShootingGame.jsx:39-45 | Every bullet kept by the bullet pass is an old bullet risen by exactly 10 and is not above the top edge (y >= 0). |
| ShootingGame.AdvanceBulletsComplete | src/ShootingGame.jsx:39-45 | Every old bullet that is still at y >= 0 after rising by 10 is kept. |
| ShootingGame.AdvanceBulletsCount | src/ShootingGame.jsx:39-45 | Multiplicity: a position occurs in the result exactly as often as the bullet 10 below it occurs in the input when it is at y >= 0, and never otherwise, so identical bullets are all kept. |
| ShootingGame.Descend | src/ShootingGame.jsx:52-59 | Reference for the enemy movement pass (descend by 2, drop below 400); it never creates an enemy. What it keeps is stated by the three lemmas below. |
| ShootingGame.DescendSound | src/ShootingGame.jsx:52-59 | Every enemy kept by the movement pass is an old enemy descended by exactly 2 and has y <= 400. |
| ShootingGame.DescendComplete | src/ShootingGame.jsx:52-59 | Every old enemy still at y <= 400 after descending by 2 is kept. |
| ShootingGame.DescendCount | src/ShootingGame.jsx:52-59 | Multiplicity: a position occurs in the result exactly as often as the enemy 2 above it occurs in the input when it is at y <= 400, and never otherwise. |
| ShootingGame.FirstHit | src/ShootingGame.jsx:65-71 | The chosen bullet overlaps the enemy under the four strict box inequalities and no earlier bullet does; no result means no bullet overlaps. |
| ShootingGame.ResolveEnemies | src/ShootingGame.jsx:52-78 | The enemy pass keeps or removes each input enemy once: kept enemies plus hits never exceed the input enemies. |
| ShootingGame.ResolveHitsOverlap | src/ShootingGame.jsx:64-77 | A bullet/enemy pair is removed only when its boxes overlap under the four strict inequalities. |
| ShootingGame.ResolveConservesBullets | src/ShootingGame.jsx:64-77 | Surviving bullets plus the bullets of the hits are exactly the input bullets (as multisets), so no bullet is created or removed twice. |
| ShootingGame.ResolveConservesEnemies | src/ShootingGame.jsx:52-77 | Surviving enemies plus the enemies of the hits are exactly the descended, on-screen enemies (as multisets), so no enemy is removed twice. |
| ShootingGame.ResolveLeavesNoOverlap | src/ShootingGame.jsx:64-77 | After the pass no surviving enemy overlaps a surviving bullet. |
| ShootingGame.Step | src/ShootingGame.jsx:38-88 | The player is unchanged; bullets are conserved against the bullet pass; when more than 1000 ms have passed the enemies are conserved against the movement pass plus one new enemy at (spawnX, -30) at the end and the spawn time becomes now, otherwise nothing is spawned and the spawn time is unchanged. |
| ShootingGame.Tick | src/ShootingGame.jsx:33-112 | Outside playing nothing changes and no frame is requested; while playing the phase becomes gameOver and no frame is requested exactly when some enemy has y + 30 beyond the player's y, the score rises by 10 per hit, surviving bullets are old ones risen by 10 and on screen, surviving enemies are the spawned one or old ones descended by 2 and at most 400. |
| ShootingGame.Click | src/ShootingGame.jsx:126-150 | In start only the phase changes, to playing; in playing exactly one bullet is appended at (mouseX - 2.5, player y) and nothing else changes; in gameOver the result is the initial game with score 0 and phase start. |
| ShootingGameProofs.TickPreservesInvariant | src/ShootingGame.jsx:33-112 | A frame keeps the reachable-game invariant: player at (290, 370), score a multiple of 10, start means the initial game, bullets between the top edge and the player's y, enemies at or below -30, and while playing every enemy above the player's line. |
| ShootingGameProofs.ClickPreservesInvariant | src/ShootingGame.jsx:126-150 | A click keeps the same invariant. |
| ShootingGameProofs.RunPreservesInvariant | src/ShootingGame.jsx:33-150 | Any sequence of frames and clicks from an invariant game ends in an invariant game. |
| ShootingGameProofs.BottomCullUnreachable | src/ShootingGame.jsx:55-59 | In a reachable playing game every enemy moves down by 2 and none is removed by the bottom-edge cull, because the loss check at y + 30 > 370 ends the round first. |
| ShootingGameProofs.ReachableNeverCullsAtBottom | src/ShootingGame.jsx:99-107 | For any event sequence from the initial game that leaves the game playing, the bottom-edge cull keeps every enemy. |
| ShootingGameProofs.CollisionConservation | src/ShootingGame.jsx:64-77 | The score gain of a frame is 10 times the bullets consumed by hits and 10 times the enemies consumed by hits (not counting the spawned one), so both counts are equal. |
| ShootingGameProofs.SpawnCadence | src/ShootingGame.jsx:80-88 | A frame adds at most one enemy, only when now - lastSpawn > 1000, at (spawnX, -30) at the end of the list, setting lastSpawn to now; otherwise lastSpawn is unchanged and the enemy count does not grow. |
| ShootingGameProofs.NoCloseSpawns | src/ShootingGame.jsx:82-87 | After a frame that spawns at t1, a frame at t2 with t2 - t1 <= 1000 does not spawn: the spawn time stays t1 and the enemy count does not grow. |
| ShootingGameProofs.FrozenWithoutClicks | src/ShootingGame.jsx:34 | Outside playing, any number of frames leaves the game unchanged. |
| ShootingGameProofs.PhaseCycle | src/ShootingGame.jsx:131-149 | From gameOver a click resets to the initial game and a second click starts playing it. |
| ShootingGameProofs.SpliceSkipsBullet | src/ShootingGame.jsx:39-45 | Two bullets at y = 5: the pass as written leaves one unmoved bullet, the filtered pass removes both. |
| ShootingGameProofs.ScenarioFireAndRise | src/ShootingGame.jsx:136-141 | Start, click, fire from x = 300: a bullet at (297.5, 370), which one frame later is at (297.5, 360) with no score change and the round continuing. |
| ShootingGameProofs.ScenarioHit | src/ShootingGame.jsx:64-77 | A bullet at (297.5, 370) and an enemy at (295, 350): after one frame both are gone and the score is 10. |
| ShootingGameProofs.ScenarioBreach | src/ShootingGame.jsx:99-107 | An enemy at y = 339 descends to 341, crosses the player's line and ends the round with no further frame. |
| Shopping.Trim | src/Shopping.jsx:11 | The trimmed name is a slice of the input that drops only whitespace at both ends, starts and ends with a non-space, and is empty exactly when the input is blank. |
| Shopping.AddItem | src/Shopping.jsx:8-23 | A blank input leaves the list unchanged; otherwise exactly one item is appended, with id now, the trimmed non-empty name and quantity 1, and the existing items are unchanged. |
| Shopping.Increment | src/Shopping.jsx:30-36 | Length, order, ids and names are kept; matching items gain exactly one unit and other items are unchanged. |
| Shopping.Decrement | src/Shopping.jsx:39-47 | Length, order, ids and names are kept; matching items lose one unit if positive and otherwise end at 0, never negative; other items are unchanged. |
| Shopping.Remove | src/Shopping.jsx:50-52 | No item with the id remains, every other item is kept in its original relative order, and the length drops by the number of matching items. |
| Shopping.ClearAll | src/Shopping.jsx:55-57 | The list becomes empty. |
| ShoppingProofs.TrimIdempotent | src/Shopping.jsx:11 | Trimming twice equals trimming once. |
| ShoppingProofs.AddThenRemove | src/Shopping.jsx:50-52 | Removing by the id just used to add gives the same list as removing that id from the original list. |
| ShoppingProofs.AddThenRemoveRestores | src/Shopping.jsx:16-23 | When no item had the new id, adding and then removing by it restores the original list. |
| ShoppingProofs.RemoveIdempotent | src/Shopping.jsx:50-52 | Removing twice by the same id equals removing once. |
| ShoppingProofs.IncrementThenDecrement | src/Shopping.jsx:30-47 | On non-negative quantities a decrement undoes an increment of the same id. |
| ShoppingProofs.DecrementIdempotentAtZero | src/Shopping.jsx:43 | Decrementing an id whose items are all at 0 changes nothing. |
| ShoppingProofs.IncrementTotal | src/Shopping.jsx:30-36 | An increment raises the total quantity by the number of items carrying the id. |
| ShoppingProofs.DecrementTotal | src/Shopping.jsx:39-47 | On non-negative quantities a decrement lowers the total by the number of matching items above zero. |
| ShoppingProofs.ApplyKeepsNonNegative | src/Shopping.jsx:16-57 | Each of add, increment, decrement, remove and clear keeps every quantity non-negative. |
| ShoppingProofs.NonNegativeAcrossActions | src/Shopping.jsx:16-57 | Any sequence of list actions from a list with non-negative quantities keeps every quantity non-negative. |

## Left out

- Canvas drawing (`clearRect`, `fillRect`, colours, the score and phase text) and all JSX markup: rendering, no state change.
- React hooks and `requestAnimationFrame` self-scheduling: scheduling is the `requestFrame` result of `Tick`.
- `getBoundingClientRect` and `clientX`: the click column is the `mouseX` parameter.
- `Date.now()` and `Math.random()`: the parameters `now` and `spawnX` (and `now` as the id of a new list item).
- IEEE floating point: coordinates are exact `real`s.
- The exact splice-during-`forEach` behaviour of the enemy and collision passes: modelled as filters and first-match pairing, as described above; only the bullet pass is also modelled as written.
- The Unicode whitespace set of `String.prototype.trim`: `Shopping.IsSpace` is a fixed set.
- The controlled input `newItem`, its `onChange` wiring and its clearing after a successful add: UI state, not list state.
- The markup conditions that show the remove button only at quantity 0 and the clear button only for a non-empty list: the operations themselves accept any list.
- `src/App.jsx` (the identity SDK initialisation and profile fetch) is not part of this model.

## Findings

| source | as written | input that shows it | evidently intended | confidence | as-written member | corrected member |
|---|---|---|---|---|---|---|
| src/ShootingGame.jsx:39-45 | `splice(index, 1)` inside `forEach` over the same array shifts the next bullet into the visited index, so it is not moved that frame | bullets `[(0, 5), (0, 5)]`: the first rises to -5 and is removed, the second stays at (0, 5) unmoved | every bullet rises by 10 each frame and every bullet above the top edge is removed | high, not executed | ShootingGame.AdvanceBulletsAsWritten, ShootingGameProofs.SpliceSkipsBullet | ShootingGame.AdvanceBulletsComplete |
