/** The episode controller `FlappyBirdEnv`: its episode state, `reset`,
    `step` and the state-changing `reward` property. Rendering, the
    observation and the info dictionary are not part of this model. */
module Environment {
  import opened Wrappers
  import opened Entities
  import opened Evaluator
  import opened Bookkeeping

  class FlappyBirdEnv {
    /** The code of Bird, Pipe and Base this controller calls. */
    const kin: Kinematics

    /** False until the first reset; the source's fields are None then. */
    var ready: bool
    var pipes: seq<Pipe>
    var bird: Bird
    var base: Base
    /** The stored best distance; None stands for infinity. */
    var oldDistance: Option<real>
    var lastAction: int
    var score: int
    /** Pipes appended by `step` since the last reset. */
    ghost var spawned: nat

    /** The invariant of every reachable state: after a reset the bird
        stays at x = 222, every pipe is flagged except the last one, and
        the score is the number of pipes spawned; `lastAction` is always 0. */
    ghost predicate Valid()
      reads this
    {
      && kin.Valid()
      && lastAction == 0
      && (ready ==> OnlyLastUnpassed(pipes) && bird.x == START_X && score == spawned)
    }

    /** `__init__`: nothing is created yet; the stored best is infinity. */
    constructor (k: Kinematics)
      requires k.Valid()
      ensures Valid() && !ready && kin == k
      ensures oldDistance == None && lastAction == 0 && score == 0
    {
      kin := k;
      ready := false;
      pipes := [];
      oldDistance := None;
      lastAction := 0;
      score := 0;
      spawned := 0;
    }

    /** `reset`: one pipe at the spawn x with the drawn gap, a new ground,
        the bird at its start, score and last action 0. The stored best
        distance is left as it was. */
    method Reset(gap: Gap)
      requires Valid()
      modifies this
      ensures Valid() && ready
      ensures pipes == [NewPipe(SPAWN_X, gap)]
      ensures bird == kin.newBird(START_X, START_Y) && bird.x == START_X && bird.y == START_Y
      ensures base == kin.newBase(BASE_ARG)
      ensures score == 0 && lastAction == 0
      ensures oldDistance == old(oldDistance)
    {
      pipes := [NewPipe(SPAWN_X, gap)];
      base := kin.newBase(BASE_ARG);
      bird := kin.newBird(START_X, START_Y);
      lastAction := 0;
      score := 0;
      spawned := 0;
      ready := true;
    }

    /** The `reward` property: evaluated on the current state, it may
        change the stored best distance. */
    method Reward() returns (r: real)
      requires Valid() && ready
      modifies this`oldDistance
      ensures Valid() && ready
      ensures Evaluation(r, oldDistance)
                == EvaluateReward(IsPipePassed(pipes, bird.x), Terminated(pipes, bird, kin),
                                  Distance(bird, pipes[0], kin), old(oldDistance))
    {
      var newDistance := Distance(bird, pipes[0], kin);
      if IsPipePassed(pipes, bird.x) {
        r := 1.0;
      } else if Terminated(pipes, bird, kin) {
        oldDistance := None;
        r := -1.0;
      } else if NoFartherThan(newDistance, oldDistance) {
        oldDistance := Some(newDistance);
        r := DistanceReward(newDistance);
      } else {
        r := 0.0;
      }
    }

    /** The loop of `step` over the pipes: mark each pipe whose right edge
        is off-screen, flag and score each crossed pipe, move every pipe.
        The marks and crossings use the position before the move. */
    method WalkPipes() returns (toBeRemoved: seq<bool>, addPipe: bool)
      modifies this`pipes, this`score
      ensures |pipes| == |old(pipes)| == |toBeRemoved|
      ensures forall j :: 0 <= j < |pipes| ==> pipes[j] == Tick(old(pipes)[j], bird.x, kin)
      ensures forall j :: 0 <= j < |pipes| ==> toBeRemoved[j] == OffScreen(old(pipes)[j], kin.pipeWidth)
      ensures score == old(score) + CountCrossed(old(pipes), bird.x)
      ensures addPipe == IsPipePassed(old(pipes), bird.x)
    {
      ghost var before := pipes;
      toBeRemoved := [];
      addPipe := false;
      var i := 0;
      while i < |pipes|
        invariant |pipes| == |before| && 0 <= i <= |pipes|
        invariant forall j :: 0 <= j < i ==> pipes[j] == Tick(before[j], bird.x, kin)
        invariant forall j :: i <= j < |pipes| ==> pipes[j] == before[j]
        invariant |toBeRemoved| == i
        invariant forall j :: 0 <= j < i ==> toBeRemoved[j] == OffScreen(before[j], kin.pipeWidth)
        invariant score == old(score) + CountCrossed(before[..i], bird.x)
        invariant addPipe <==> exists j :: 0 <= j < i && Crossed(before[j], bird.x)
      {
        var pipe := pipes[i];
        toBeRemoved := toBeRemoved + [pipe.x + kin.pipeWidth < 0.0];
        if !pipe.passed && pipe.x < bird.x {
          score := score + 1;
          pipe := pipe.(passed := true);
          addPipe := true;
        }
        pipe := pipe.(x := kin.scroll(pipe.x));
        pipes := pipes[i := pipe];
        assert before[..i + 1][..i] == before[..i];
        i := i + 1;
      }
      assert before[..i] == before;
    }

    /** The pipe part of `step` for the bird's new x: the walk, the append
        of one pipe at the spawn x if some pipe was crossed, and the
        removal of the pipes marked before the move. */
    method UpdatePipes(gap: Gap)
      modifies this`pipes, this`score, this`spawned
      ensures pipes == StepPipes(old(pipes), bird.x, kin, gap)
      ensures score == old(score) + CountCrossed(old(pipes), bird.x)
      ensures spawned == old(spawned) + (if IsPipePassed(old(pipes), bird.x) then 1 else 0)
    {
      ghost var before := pipes;
      var toBeRemoved, addPipe := WalkPipes();
      ghost var ticked := pipes;
      UnmarkedAreSurvivors(before, ticked, toBeRemoved, bird.x, kin);

      if addPipe {
        pipes := pipes + [NewPipe(SPAWN_X, gap)];
        UnmarkedAppend(ticked, toBeRemoved, NewPipe(SPAWN_X, gap));
        toBeRemoved := toBeRemoved + [false];
        spawned := spawned + 1;
      }
      pipes := RemoveMarked(pipes, toBeRemoved);
    }

    /** `step`: jump on action 1, move the bird, walk the pipes once
        (mark off-screen pipes, flag and score crossed ones, move each),
        append a pipe if any was crossed, drop the marked ones, move the
        ground, then evaluate reward and termination on the new state. */
    method Step(action: int, gap: Gap) returns (reward: real, terminated: bool, truncated: bool)
      requires Valid() && ready
      modifies this
      ensures Valid() && ready
      ensures bird == NextBird(old(bird), action, kin)
      ensures score == old(score) + CountCrossed(old(pipes), bird.x)
      ensures score == old(score) + (if IsPipePassed(old(pipes), bird.x) then 1 else 0)
      ensures pipes == StepPipes(old(pipes), bird.x, kin, gap)
      ensures base == kin.scrollBase(old(base))
      ensures lastAction == old(lastAction)
      ensures Evaluation(reward, oldDistance)
                == EvaluateReward(IsPipePassed(pipes, bird.x), Terminated(pipes, bird, kin),
                                  Distance(bird, pipes[0], kin), old(oldDistance))
      ensures terminated == Terminated(pipes, bird, kin)
      ensures !truncated
    {
      if action == 1 {
        bird := kin.jump(bird);
      }
      bird := kin.fall(bird);

      ghost var before := pipes;
      UpdatePipes(gap);
      base := kin.scrollBase(base);

      OneCrossingPerTick(before, bird.x);
      StepKeepsOnlyLastUnpassed(before, bird.x, kin, gap);

      reward := Reward();
      terminated := Terminated(pipes, bird, kin);
      truncated := false;
    }
  }
}
