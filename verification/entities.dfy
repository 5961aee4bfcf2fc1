/** The entities the environment controller owns, the fixed layout constants
    it uses, and the kinematics of the entities whose code is not part of
    this model (Bird, Pipe, Base), taken as abstract functions. */
module Entities {

  /** x at which every pipe is created (`Pipe(700, ...)`). */
  const SPAWN_X: real := 700.0
  /** Start position of the bird (`Bird(222, 376)`). */
  const START_X: real := 222.0
  const START_Y: real := 376.0
  /** Argument the ground is created with (`Base(700)`). */
  const BASE_ARG: real := 700.0
  /** The bird's lower edge at or below this y ends the episode. */
  const GROUND_LIMIT: real := 730.0
  /** Offset in the distance to the gap: subtracted from the pipe's x
      (added to bird.x - pipe.x), so the gap is measured at pipe.x - 150. */
  const GAP_X_OFFSET: real := 150.0
  /** Distance at which the distance reward is zero. */
  const REWARD_SCALE: real := 410.0

  /** The bird: x and y as the controller reads them, plus the vertical
      velocity and tick counter that only the bird's own code uses. */
  datatype Bird = Bird(x: real, y: real, vel: real, tick: int)

  /** The randomly drawn vertical placement of a new pipe. */
  datatype Gap = Gap(height: real, top: real, bottom: real)

  datatype Pipe = Pipe(x: real, height: real, top: real, bottom: real, passed: bool)

  /** The scrolling ground: two tile positions and its row. */
  datatype Base = Base(x1: real, x2: real, y: real)

  /** A freshly created pipe: at x, with the drawn gap, not passed. */
  function NewPipe(x: real, g: Gap): Pipe {
    Pipe(x, g.height, g.top, g.bottom, false)
  }

  /** Vertical middle of a pipe's opening, as the controller computes it. */
  function GapCenterY(p: Pipe): real {
    (p.bottom + p.height) / 2.0
  }

  /** What the controller needs from code outside this model:
      `jump` and `fall` are Bird.jump and Bird.move, `scroll` is the new x
      Pipe.move gives a pipe, `collide` is Pipe.collide, `scrollBase` is
      Base.move, `newBird` and `newBase` the two constructors, `root` is
      np.sqrt, `birdHeight` the bird image's height, `pipeWidth` the width
      of the top pipe image. */
  datatype Kinematics = Kinematics(
    jump: Bird -> Bird,
    fall: Bird -> Bird,
    scroll: real -> real,
    collide: (Pipe, Bird) -> bool,
    scrollBase: Base -> Base,
    newBird: (real, real) -> Bird,
    newBase: real -> Base,
    root: real -> real,
    birdHeight: real,
    pipeWidth: real)
  {
    /** The only facts assumed of that code: the bird moves vertically
        only and starts where it is put, a square root is not negative,
        and a pipe image has no negative width. */
    ghost predicate Valid() {
      && (forall b :: jump(b).x == b.x)
      && (forall b :: fall(b).x == b.x)
      && (forall x, y :: newBird(x, y).x == x && newBird(x, y).y == y)
      && (forall v :: 0.0 <= v ==> 0.0 <= root(v))
      && 0.0 <= pipeWidth
    }
  }

  /** The bird after one tick: jump on action 1, then move. */
  function NextBird(b: Bird, action: int, k: Kinematics): (nb: Bird)
    requires k.Valid()
    ensures nb.x == b.x
  {
    k.fall(if action == 1 then k.jump(b) else b)
  }
}
