# Dino runner: game engine and toast store in Dafny

This project models the two parts of the browser runner game that hold logic:

- **The game engine** (`useGameEngine`), in `game_engine.dfy`. It is a state machine over
  `waiting`, `playing` and `gameOver`. Each frame (`gameLoop`) does four things in order:
  - it applies gravity to the dinosaur and clamps it to the ground line;
  - it advances the animation phase;
  - it scrolls the obstacles left, drops those that have left the screen and may spawn one at the right edge;
  - it tests the dinosaur against every obstacle. A hit ends the run and updates the high score. Otherwise the score accumulator grows by 0.1 and the scroll speed is recomputed, capped at 12.

  `startGame`, `jump` and `resetGame` are the commands around the frame. The click/space-bar handler that chooses between start and jump is folded in as `Press`.
- **The toast store** (`use-toast`), in `toast_store.dfy`. It is a list reducer with four actions:
  - ADD prepends and truncates to `TOAST_LIMIT` = 1;
  - UPDATE merges a partial toast by id;
  - DISMISS closes toasts and queues their ids for removal;
  - REMOVE filters by id or clears the list.

  Around it are `memoryState`, the set of ids with a pending removal timer, and the id counter behind `genId`.

The specification of the engine is the value `World` with the transition functions `Initial`, `AfterStart`, `AfterJump`, `AfterReset`, `Next` (one frame, with the random spawn decision as a `bool` argument), `AfterPress` and `Run` (many frames). The class `GameEngine.Engine` holds the same fields and updates them step by step. Each of its methods is proved to agree with the matching function and to keep the invariant `Inv`. The frame's two loops, the obstacle `filter` and the collision `for … of`, are the methods `MoveObstacles` and `FindCollision`. They are proved against `Advance` and `HitsAny`.

The reducer is a pure function, `ToastStore.Reducer`. The class `ToastStore.Store` holds `memoryState`, the pending ids and the counter. `Dispatch` runs the DISMISS queueing loop and applies the reducer.

Numbers are exact reals: 0.8, 0.1 and 0.005 are the exact rationals. `%` on the animation phase is JavaScript's truncating remainder, written out in `Mod2`.

Some consequences of the code that the model keeps:
- One frame from the start pose leaves the dinosaur at rest on the ground, because the clamp fires at once (`StepFromStartPose`).
- The score stored at game over is the unfloored accumulator.
- The speed is computed from the unfloored accumulator.

## Model

| member | source | states |
|---|---|---|
| `GameEngine.CheckCollision` | src/hooks/useGameEngine.ts:85-90 | for boxes of positive size, a hit iff the open x-extents and the open y-extents both overlap; boxes that only touch along an edge never collide |
| `GameEngine.CollisionSymmetric` | src/hooks/useGameEngine.ts:85-90 | swapping the two boxes gives the same answer |
| `GameEngine.CollisionIsSharedPoint` | src/hooks/useGameEngine.ts:85-90 | for boxes of positive size, a hit iff some point lies strictly inside both |
| `GameEngine.GroundedDinoIsHit` | src/hooks/useGameEngine.ts:118-123 | a dinosaur on the ground is hit by any spawned obstacle that overlaps it horizontally (the obstacle reaches 5 below the ground line) |
| `GameEngine.Mod2` | src/hooks/useGameEngine.ts:108 | JavaScript `% 2`: in [0, 2) for non-negative input, (-2, 0] for negative, the input itself on [0, 2), input minus 2 on [2, 4) |
| `GameEngine.FramePhysics` | src/hooks/useGameEngine.ts:96-108 | after the physics, y never exceeds the ground line; x, width and height are unchanged; if the clamp fires the dinosaur is at rest and not jumping, otherwise velocity grew by exactly 0.8 and y moved by the new velocity; the animation phase stays in [0, 2) |
| `GameEngine.JumpArc` | src/hooks/useGameEngine.ts:71-76 | k ≤ 36 frames into a jump from the ground the dinosaur is still jumping, with velocity -15 + 0.8k and height 240 - 15k + 0.4k(k+1), above the ground |
| `GameEngine.JumpLands` | src/hooks/useGameEngine.ts:97-105 | a jump from the ground is airborne for frames 1 to 36 and lands, at rest and no longer jumping, on frame 37 |
| `GameEngine.Advance` | src/hooks/useGameEngine.ts:111-114 | the survivors are no more than the input, and every survivor is still on screen (x + width > 0) |
| `GameEngine.AdvanceConcat` | src/hooks/useGameEngine.ts:111-114 | moving and filtering works element by element, so relative order is preserved |
| `GameEngine.AdvanceMembers` | src/hooks/useGameEngine.ts:111-114 | an obstacle survives iff it is some input obstacle moved left by exactly the speed and it is still on screen |
| `GameEngine.AdvanceOne` | src/hooks/useGameEngine.ts:111-114 | a lone obstacle is moved left by the speed and kept iff its new right edge is right of the border |
| `GameEngine.Lifetime` | src/hooks/useGameEngine.ts:111-124 | a spawned obstacle (x = 800, width 17) scrolled at constant speed s for n frames is the one obstacle at x = 800 − n·s while 817 − n·s > 0, and the list is empty from then on |
| `GameEngine.LifetimeAtStartSpeed` | src/hooks/useGameEngine.ts:111-124 | at speed 4 a spawned obstacle is still live, at x = −16, after 204 frames and gone after 205 |
| `GameEngine.SpeedFor` | src/hooks/useGameEngine.ts:146 | the speed never exceeds 12, is at least 4 for a non-negative accumulator, and is exactly 12 from an accumulator of 1600 on |
| `GameEngine.SpeedMonotone` | src/hooks/useGameEngine.ts:146 | a larger accumulator never gives a lower speed |
| `GameEngine.Initial` | src/hooks/useGameEngine.ts:24-43 | the mounted hook is waiting, has no obstacles, satisfies the invariant and takes its high score from storage (0 when none is stored) |
| `GameEngine.AfterStart` | src/hooks/useGameEngine.ts:50-69 | starting, from any state, gives a playing state that satisfies the invariant and keeps the high score |
| `GameEngine.AfterJump` | src/hooks/useGameEngine.ts:71-76 | `jump`: only the dinosaur can change; state, scores, obstacles and speed are kept. Its full meaning is fixed by `JumpOnlyFromGround` |
| `GameEngine.AfterReset` | src/hooks/useGameEngine.ts:78-83 | reset gives `waiting` and keeps the invariant |
| `GameEngine.Next` | src/hooks/useGameEngine.ts:92-149 | `gameLoop`, one frame: it never leaves or enters `waiting`, never starts a game, and never lowers the high score or the accumulator. Its full meaning is fixed by `NextPreservesInv`, `StepObstacles`, `StepCollision`, `StepScoreAndSpeed`, `StepPhysics` and `StepWhenNotPlaying` |
| `GameEngine.StepWhenNotPlaying` | src/hooks/useGameEngine.ts:93 | a frame outside `playing` changes nothing |
| `GameEngine.NextPreservesInv` | src/hooks/useGameEngine.ts:92-149 | a frame keeps the invariant: accumulator ≥ 0, speed tied to it, dinosaur box fixed and at or above ground, phase in [0, 2), obstacles on screen with spawn shape and speed ≤ current, displayed score the floor while playing, and grounded at rest unless jumping |
| `GameEngine.StepObstacles` | src/hooks/useGameEngine.ts:111-125 | a playing frame keeps the moved survivors in order as a prefix and appends at most one obstacle, exactly when spawning, at x = 800, y = 210, size 17×35, moving at the current speed |
| `GameEngine.StepCollision` | src/hooks/useGameEngine.ts:127-139 | a playing frame ends the run iff the moved dinosaur overlaps a live obstacle; then accumulator and speed are unchanged, the displayed score is the unfloored accumulator and the high score is the larger of the old one and the accumulator |
| `GameEngine.StepScoreAndSpeed` | src/hooks/useGameEngine.ts:141-146 | without a hit the accumulator grows by exactly 0.1, the displayed score is its floor, the speed is min(4 + acc × 0.005, 12), lies in [4, 12] and does not decrease, and the high score is unchanged |
| `GameEngine.StepPhysics` | src/hooks/useGameEngine.ts:96-108 | from any reachable playing state, after a frame y ≤ 240, the phase is in [0, 2), x, width and height are unchanged, and a dinosaur on the ground is at rest and not jumping |
| `GameEngine.StepFromStartPose` | src/hooks/useGameEngine.ts:57-65 | one frame from the start pose leaves y = 240, velocity 0, not jumping |
| `GameEngine.RunMonotone` | src/hooks/useGameEngine.ts:92-149 | over any run of frames the invariant holds, and accumulator, speed and high score never decrease; outside `playing` nothing changes |
| `GameEngine.JumpOnlyFromGround` | src/hooks/useGameEngine.ts:71-76 | a jump changes the state only while playing with the dinosaur grounded at rest, and then sets velocity -15 and the jumping flag; a second jump changes nothing; the invariant is kept |
| `GameEngine.AfterPress` | src/components/GameCanvas.tsx:131-137 | the click handler: afterwards the game is playing and the high score is unchanged. Which command it runs is fixed by `PressStartsOrJumps` |
| `GameEngine.PressStartsOrJumps` | src/components/GameCanvas.tsx:131-137 | a press starts the game outside `playing` and jumps while playing; afterwards the game is playing, the high score is unchanged and the invariant is kept |
| `GameEngine.MoveObstacles` | src/hooks/useGameEngine.ts:111-114 | the loop over the obstacles yields exactly `Advance` of them |
| `GameEngine.FindCollision` | src/hooks/useGameEngine.ts:128-139 | the loop reports a hit iff some obstacle overlaps the dinosaur |
| `GameEngine.Engine.constructor` | src/hooks/useGameEngine.ts:24-43 | the object starts in the `Initial` state |
| `GameEngine.Engine.StartGame` | src/hooks/useGameEngine.ts:50-69 | `playing`, score and accumulator 0, speed 4, dinosaur at (100, 240) with size 44×47, velocity 0, not jumping, phase 0, no obstacles; high score kept |
| `GameEngine.Engine.Jump` | src/hooks/useGameEngine.ts:71-76 | velocity -15 and jumping only when playing and not already jumping; otherwise nothing changes |
| `GameEngine.Engine.ResetGame` | src/hooks/useGameEngine.ts:78-83 | the state becomes `waiting`; nothing else changes |
| `GameEngine.Engine.Step` | src/hooks/useGameEngine.ts:92-149 | the new fields are `Next` of the old ones and keep the invariant; outside `playing` nothing changes |
| `GameEngine.Engine.Press` | src/components/GameCanvas.tsx:131-137 | the new fields are `AfterPress` of the old ones |
| `ToastStore.Merge` | src/hooks/use-toast.ts:56 | every key the patch carries replaces the toast's field, including a key set to `undefined`, which clears it; every other field is kept; a patch with the toast's id keeps the id |
| `ToastStore.UpdateMatching` | src/hooks/use-toast.ts:53-57 | same length; exactly the toasts whose id equals the patch id are merged, all others are unchanged |
| `ToastStore.CloseMatching` | src/hooks/use-toast.ts:63-65 | same length; with no id every toast is closed, with an id exactly the toasts with that id, all others unchanged |
| `ToastStore.Without` | src/hooks/use-toast.ts:72 | a toast is kept iff it was present and its id differs; never longer |
| `ToastStore.Ids` | src/hooks/use-toast.ts:60 | the ids of the toasts, position by position |
| `ToastStore.Reducer` | src/hooks/use-toast.ts:48-75 | `reducer`: ADD leaves exactly `TOAST_LIMIT` toasts; the other actions never lengthen the list. Each action is fixed by `AddPutsNewestFirst`, `LengthBounds`, `UpdateOnlyMatching`, `DismissClosesOnly` and `RemoveDropsOnly` |
| `ToastStore.QueuedIds` | src/hooks/use-toast.ts:60 | the ids DISMISS hands to the removal queue: only DISMISS queues anything, and only ids of present toasts or the id it names. Which ids exactly is fixed by `DismissQueues` and `EmptyIdQuirk` |
| `ToastStore.AddPutsNewestFirst` | src/hooks/use-toast.ts:50-51 | ADD puts the new toast first and the list has at most `TOAST_LIMIT` (1) toasts: it is exactly the new toast |
| `ToastStore.LengthBounds` | src/hooks/use-toast.ts:48-75 | no action takes a list within the limit beyond it; UPDATE and DISMISS keep the length; REMOVE never increases it |
| `ToastStore.UpdateOnlyMatching` | src/hooks/use-toast.ts:53-57 | UPDATE keeps every id, merges into the toasts with the patch's id and leaves all others unchanged |
| `ToastStore.DismissClosesOnly` | src/hooks/use-toast.ts:59-66 | DISMISS keeps length, ids, titles and descriptions; closes the named toasts (all when no id is given) and leaves the rest unchanged |
| `ToastStore.RemoveDropsOnly` | src/hooks/use-toast.ts:68-74 | REMOVE with a truthy id keeps exactly the toasts with another id; with a missing or empty id it empties the list |
| `ToastStore.WithoutConcat` | src/hooks/use-toast.ts:72 | removal works element by element, so the kept toasts stay in order |
| `ToastStore.DismissQueues` | src/hooks/use-toast.ts:60 | DISMISS queues its id when truthy, else the ids of all toasts; other actions queue nothing |
| `ToastStore.EmptyIdQuirk` | src/hooks/use-toast.ts:60-72 | an empty id queues every toast in DISMISS but closes only toasts whose id is empty, and makes REMOVE clear the list |
| `ToastStore.Decimal` | src/hooks/use-toast.ts:22 | the decimal text of a number is non-empty, all digits, and one digit long iff the number is below 10 |
| `ToastStore.DecimalInjective` | src/hooks/use-toast.ts:22 | different numbers have different decimal texts |
| `ToastStore.IdFor` | src/hooks/use-toast.ts:22 | every generated id is a non-empty (truthy) string |
| `ToastStore.IdsDistinct` | src/hooks/use-toast.ts:21-22 | counter values below `MAX_SAFE_INTEGER` give distinct ids |
| `ToastStore.Store.constructor` | src/hooks/use-toast.ts:21-35 | no toasts, nothing pending, counter 0 |
| `ToastStore.Store.AddToRemoveQueue` | src/hooks/use-toast.ts:37-46 | the id is pending afterwards; a new timer is started iff it was not already pending, so queueing is idempotent; toasts and counter unchanged |
| `ToastStore.Store.Dispatch` | src/hooks/use-toast.ts:85-88 | the state becomes `Reducer` of the old state; the ids DISMISS queues join the pending set; the counter is unchanged; at most `TOAST_LIMIT` toasts remain |
| `ToastStore.Store.GenId` | src/hooks/use-toast.ts:22 | the counter grows by one and the id is `IdFor` of the new counter; nothing else changes |
| `ToastStore.Store.ShowToast` | src/hooks/use-toast.ts:92-103 | a fresh id from the counter, and the list becomes exactly the new open toast with that id; nothing is queued |
| `ToastStore.Store.UpdateShown` | src/hooks/use-toast.ts:108-109 | the update handle dispatches UPDATE with the patch's id forced to the toast's own id |
| `ToastStore.Store.TimerFired` | src/hooks/use-toast.ts:40-43 | a firing removal timer drops its id from the pending set and dispatches REMOVE for that id |

## Left out

- Drawing on the canvas, the ground dots, the game overlay text and the render loop (`src/components/GameCanvas.tsx`) are presentation. Only the click handler is modelled, as `Press`.
- The space-bar listener in `src/pages/Index.tsx` maps keys to commands exactly as the click handler does; it is covered by `Press`.
- The score readout, the mobile controls and the breakpoint hook (`src/components/GameUI.tsx`, `src/components/MobileControls.tsx`, `src/hooks/use-mobile.tsx`) are UI only.
- Local storage: the stored high score is a constructor argument, already parsed. Parsing a malformed value (`NaN`) and writing the new high score back are not modelled; the high score field itself is.
- `requestAnimationFrame` scheduling, the effect that arms and cancels it, and React's stale closures over `gameState` and `highScore`: one frame is one call of `Step`, always reading the current state.
- `Math.random() < 0.008` is the `spawn` argument of `Step`.
- IEEE-754 rounding of 0.8, 0.1, 0.2 and 0.005: all quantities are exact reals.
- The dinosaur and the obstacles are values, so the aliasing of the returned `dinosaur` and `obstacles` objects with the engine's own references is not captured.
- The removal delay of the toast timers, the `listeners` array and the `useToast` hook are timing and React plumbing. A firing timer is modelled by `TimerFired`, whenever the caller chooses.
- The `dismiss` handle returned by `toast` and the `dismiss` of `useToast` are single DISMISS dispatches. They are covered by `Dispatch`.
- The `onOpenChange` callback, `action`, `variant` and the other presentation fields of a toast are not modelled; a toast carries `id`, `open`, `title` and `description`.
- IdsDistinct: holds only below `MAX_SAFE_INTEGER`. Past it the counter wraps through "0", and double precision would already have been lost.
- CheckCollision: the overlap characterisation is stated only for boxes of positive width and height, as every box in the game is.
- CollisionIsSharedPoint: stated only for boxes of positive width and height. For degenerate boxes the four comparisons can report a hit that no point witnesses. Every box in the game has positive size.
