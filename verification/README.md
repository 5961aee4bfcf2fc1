# Flappy Bird environment controller, modelled in Dafny

This project models the episode controller `FlappyBirdEnv` of a Flappy Bird
reinforcement-learning environment. An agent picks an action each tick (1 =
jump, anything else = no jump). `step` advances the bird, walks the pipe list,
scores passed pipes, spawns and removes pipes and moves the ground. It then
reports a reward and whether the episode has terminated. `reset` starts a new
episode.

Modules:

- `Wrappers` (`wrappers.dfy`): `Option` and `Result`.
- `Entities` (`entities.dfy`): the layout constants (spawn x 700, bird start
  (222, 376), ground limit 730, distance offset 150, reward scale 410), the value
  types `Bird`, `Pipe`, `Gap`, `Base`, and `Kinematics`. `Kinematics` holds
  the code of Bird, Pipe and Base that the controller calls but that is not
  part of this model: `jump`, `move`, `Pipe.move`, `collide`, `Base.move`,
  the constructors, `np.sqrt`, the bird's image height and the pipe's image
  width. Its `Valid()` lists the only facts assumed of that code:
  - the bird moves vertically only;
  - a new bird starts where it is put;
  - a square root is never negative;
  - a pipe image never has negative width.
- `Geometry` (`geometry.dfy`): the guide lines from the active pipe's gap, the
  strict point-above-line test, and the out-of-bounds and off-centre tests.
- `Evaluator` (`evaluator.dfy`): what counts as a passed pipe, termination,
  the distance to the gap, and the four-branch reward. The reward's stored
  best distance uses `None` for infinity.
- `Bookkeeping` (`bookkeeping.dfy`): the pipe part of one `step`, as functions
  of the pipe list before the tick (`Survivors`, `KeptIndices`, `StepPipes`),
  with their lemmas.
- `Environment` (`environment.dfy`): the class `FlappyBirdEnv`. Its fields
  are the episode state. `Reset`, `Reward` and `Step` update it in place, and
  the pipe loop of `step` is the method `WalkPipes`.

The class invariant `Valid()` holds in every reachable state. It says:

- after a reset, the bird stays at x = 222;
- every pipe is flagged `passed` except the last one, which is not;
- the score equals the number of pipes spawned since the reset;
- `lastAction` is 0.

From the pipe fact it follows that one tick can score at most one pipe, and
that the score grows by one exactly when a pipe is appended.

Behaviour of the code that the model keeps as it is:

- Pass bonus. The reward pays +1 when any pipe is still unflagged but already
  behind the bird after the tick's move. The next tick's walk flags and scores
  that pipe (`BonusAnnouncesScore`).
- Distance. `Distance` measures to x = pipe.x - 150 (`bird_x - pipe.x + 150`).
- Stored best distance. Only the reward's termination branch resets it to
  infinity. `reset` leaves it unchanged, and so does `Reset`.
- Last action. `_last_action` is never set from the action, so it is 0 in
  every state.
- No guards. The code does not validate the action, and it does not refuse
  `step` after termination. Neither does the model.

## Model

| member | source | states |
|---|---|---|
| `Entities.NextBird` | flappy_bird_env/flappy_bird_env.py:225-229 | jump on action 1, then move; the bird keeps its x |
| `Geometry.LinePoints` | flappy_bird_env/flappy_bird_env.py:149-160 | succeeds exactly for "top" and "bottom", fails with the invalid-line-type error otherwise, and its two points are 450 apart in x |
| `Geometry.IsPointAboveLine` | flappy_bird_env/flappy_bird_env.py:163-181 | the point's y exceeds the slope/intercept line through p1 and p2 at its x (needs p1.x != p2.x); the line passes through both points, so neither is above it, and the test equals the point-slope form through p1 |
| `Geometry.AboveIffCross` | flappy_bird_env/flappy_bird_env.py:163-181 | the slope/intercept test agrees with the division-free cross-product test for either order of the two points (needs p1.x != p2.x) |
| `Geometry.OnLineNotAbove` | flappy_bird_env/flappy_bird_env.py:178-181 | the test is strict: a point on the line is not above it |
| `Geometry.IsBirdOutOfBounds` | flappy_bird_env/flappy_bird_env.py:113-121 | not above the top guide line or above the bottom one; at the lines' left end (500 left of the pipe) that is exactly y <= 0 or y below the ground row |
| `Geometry.OutOfBoundsIffOutsideCorridor` | flappy_bird_env/flappy_bird_env.py:113-121 | out of bounds iff the bird is not above the top guide line or is above the bottom one, stated without slopes |
| `Geometry.IsBirdInPipeButOffCenter` | flappy_bird_env/flappy_bird_env.py:123-131 | true iff the bird is in the pipe's column (64 left to 100 right) and at least 40 from the gap centre vertically |
| `Evaluator.IsPipePassed` | flappy_bird_env/flappy_bird_env.py:110-111 | some pipe is unflagged with x behind the bird, i.e. the set of such positions is non-empty |
| `Evaluator.CountIsCrossedPositions` | flappy_bird_env/flappy_bird_env.py:232-241 | the score added by the walk is the number of positions holding an unflagged pipe behind the bird |
| `Evaluator.PassedIffCounted` | flappy_bird_env/flappy_bird_env.py:110-111 | `_is_pipe_passed` holds iff the walk's count of crossed pipes is positive |
| `Evaluator.AllPassedNoneCounted` | flappy_bird_env/flappy_bird_env.py:236-237 | pipes already flagged are never scored again |
| `Evaluator.AtMostOneCrossing` | flappy_bird_env/flappy_bird_env.py:236-239 | while only the last pipe is unflagged, only it can be crossed, so a tick scores at most 1 |
| `Evaluator.OneCrossingPerTick` | flappy_bird_env/flappy_bird_env.py:236-244 | under the same invariant, the score grows by 1 exactly when some pipe is crossed, and by 0 otherwise |
| `Evaluator.AnyCollides` | flappy_bird_env/flappy_bird_env.py:77 | the `any` over the collision list holds iff some pipe collides with the bird |
| `Evaluator.Terminated` | flappy_bird_env/flappy_bird_env.py:76-79 | with no pipes, terminated iff the bird is above the screen or its lower edge reaches 730; with the bird inside those bounds, terminated iff some pipe collides |
| `Evaluator.TerminatedIff` | flappy_bird_env/flappy_bird_env.py:76-79 | terminated iff some pipe collides, or bird.y + height >= 730, or bird.y < 0 |
| `Evaluator.Distance` | flappy_bird_env/flappy_bird_env.py:133-139 | the distance from the bird to the active pipe's gap is never negative |
| `Evaluator.DistanceReward` | flappy_bird_env/flappy_bird_env.py:141-147 | (410 - d)/410 is at most 1 for d >= 0, equals 1 iff d = 0, and is nonnegative iff d <= 410 |
| `Evaluator.EvaluateReward` | flappy_bird_env/flappy_bird_env.py:60-73 | the stored best either stays, becomes infinity (only on the termination branch, or if it already was infinity) or becomes d, and never rises otherwise; the reward is 1, -1, 0 or the distance reward with the best set to d; it is at most 1 |
| `Evaluator.RewardIdempotent` | flappy_bird_env/flappy_bird_env.py:59-73 | reading the reward property twice in the same state gives the same reward and the same stored best |
| `Evaluator.BestNeverRises` | flappy_bird_env/flappy_bird_env.py:67-71 | over any run of evaluations none of which takes the termination branch, the stored best distance never increases |
| `Bookkeeping.Tick` | flappy_bird_env/flappy_bird_env.py:236-241 | a pipe ends flagged iff it was flagged or crossed, a flagged or crossed pipe is never crossed again, it is moved once by `Pipe.move`, and its gap is unchanged |
| `Bookkeeping.KeptIndices` | flappy_bird_env/flappy_bird_env.py:231-234 | kept positions are no more than the pipes, increasing, and hold only pipes whose right edge was on screen before the move |
| `Bookkeeping.KeptIndicesComplete` | flappy_bird_env/flappy_bird_env.py:233-234 | every pipe whose right edge is on screen before the move is kept, so a pipe is removed iff x + width < 0 |
| `Bookkeeping.Survivors` | flappy_bird_env/flappy_bird_env.py:232-247 | the surviving pipes keep their original order, and each is its old pipe flagged if crossed and moved exactly once |
| `Bookkeeping.StepPipes` | flappy_bird_env/flappy_bird_env.py:228-247 | the pipes after a tick: the kept ones plus one more exactly when some pipe was crossed, at most one more than before, with the new pipe last |
| `Bookkeeping.SpawnIffCounted` | flappy_bird_env/flappy_bird_env.py:243-244 | at most one pipe is appended, exactly when the walk scored; it is last, unflagged and unmoved at x = 700 |
| `Bookkeeping.RemoveMarked` | flappy_bird_env/flappy_bird_env.py:246-247 | the removal loop drops exactly the marked positions and keeps the rest in order |
| `Bookkeeping.UnmarkedAreSurvivors` | flappy_bird_env/flappy_bird_env.py:231-247 | removing the pipes marked before the move from the moved list leaves exactly the survivors |
| `Bookkeeping.UnmarkedAppend` | flappy_bird_env/flappy_bird_env.py:243-247 | the pipe appended before the removal is never removed and stays last |
| `Bookkeeping.StepKeepsOnlyLastUnpassed` | flappy_bird_env/flappy_bird_env.py:228-247 | a tick keeps the list non-empty with every pipe flagged but the last |
| `Bookkeeping.BonusAnnouncesScore` | flappy_bird_env/flappy_bird_env.py:110-111 | the reward's pass bonus after a tick fires iff the next tick's walk scores a pipe |
| `Environment.FlappyBirdEnv.constructor` | flappy_bird_env/flappy_bird_env.py:38-52 | a new environment is not yet reset, its stored best is infinity, and its score and last action are 0 |
| `Environment.FlappyBirdEnv.Reset` | flappy_bird_env/flappy_bird_env.py:301-311 | one pipe at x = 700, the bird at (222, 376), a new ground, score and last action 0, stored best unchanged; establishes the invariant |
| `Environment.FlappyBirdEnv.Reward` | flappy_bird_env/flappy_bird_env.py:59-73 | reward and new stored best are those of the four-branch evaluation on the current state; the invariant still holds |
| `Environment.FlappyBirdEnv.WalkPipes` | flappy_bird_env/flappy_bird_env.py:231-241 | each pipe is marked iff off-screen before the move, flagged if crossed, moved once; score grows by the number crossed; the spawn flag is set iff some pipe was crossed |
| `Environment.FlappyBirdEnv.UpdatePipes` | flappy_bird_env/flappy_bird_env.py:228-247 | the new pipe list is the survivors plus at most one spawned pipe |
| `Environment.FlappyBirdEnv.Step` | flappy_bird_env/flappy_bird_env.py:225-255 | new bird, pipes, score (+1 exactly when a pipe is crossed), ground and reward as above, `lastAction` unchanged, truncated false, invariant kept |

## Left out

- Rendering, the pixel observation, the display, the clock, `close` and the cached `_width`/`_height`/`_shape` are I/O and library calls. `render_mode` is not modelled.
- The `info` dictionary is left out. It is a read-only copy of fields that the class already holds.
- Seeding and the random number generator are left out. The gap of each new pipe is an input (`Gap`) to `Reset` and `Step`.
- The code of `Bird`, `Pipe` and `Base` is not part of this model. Their moves, collision test, constructors and image sizes are the abstract functions in `Kinematics`.
- Because of that, the claim that the pipe list never holds more than two pipes is not modelled. It depends on the scroll speed and the pipe width.
- Floating point is not modelled. Numbers are exact reals.
- Evaluator.Distance: states only that the distance is nonnegative, because `np.sqrt` is an abstract function here.
- Pipe objects are values at positions in a sequence. `list.remove(pipe)` removes by object identity, so it is modelled as dropping the marked positions in one pass. Aliasing of pipe objects is not modelled.
- Environment.FlappyBirdEnv.Step: requires a prior reset. Before the first reset the source's fields are None and `step` fails.
