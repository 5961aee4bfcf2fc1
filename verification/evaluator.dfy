/** The reward and termination evaluator: which pipes count as passed,
    when the episode ends, the distance to the active pipe's gap and the
    four-branch reward with its stored best distance. */
module Evaluator {
  import opened Wrappers
  import opened Entities

  /** A pipe not yet flagged as passed whose x is behind the bird. */
  predicate Crossed(p: Pipe, birdX: real) {
    !p.passed && p.x < birdX
  }

  /** `_is_pipe_passed`: some pipe has been crossed but not yet flagged. */
  predicate IsPipePassed(ps: seq<Pipe>, birdX: real)
    ensures IsPipePassed(ps, birdX) <==> CrossedIndices(ps, birdX) != {}
  {
    var found := exists i :: 0 <= i < |ps| && Crossed(ps[i], birdX);
    assert found ==> (var i :| 0 <= i < |ps| && Crossed(ps[i], birdX); i in CrossedIndices(ps, birdX));
    found
  }

  /** How many pipes of ps are crossed, counted from the back. */
  function CountCrossed(ps: seq<Pipe>, birdX: real): nat {
    if ps == [] then 0
    else CountCrossed(ps[..|ps| - 1], birdX) + (if Crossed(ps[|ps| - 1], birdX) then 1 else 0)
  }

  function CrossedIndices(ps: seq<Pipe>, birdX: real): set<int> {
    set i | 0 <= i < |ps| && Crossed(ps[i], birdX)
  }

  /** The count is the number of positions holding a crossed pipe. */
  lemma {:induction false} CountIsCrossedPositions(ps: seq<Pipe>, birdX: real)
    ensures CountCrossed(ps, birdX) == |CrossedIndices(ps, birdX)|
  {
    if ps != [] {
      var n := |ps| - 1;
      var front := ps[..n];
      CountIsCrossedPositions(front, birdX);
      var s := CrossedIndices(front, birdX);
      if Crossed(ps[n], birdX) {
        assert CrossedIndices(ps, birdX) == s + {n};
        assert n !in s;
      } else {
        assert CrossedIndices(ps, birdX) == s;
      }
    }
  }

  /** Some pipe is crossed exactly when the count is positive. */
  lemma {:induction false} PassedIffCounted(ps: seq<Pipe>, birdX: real)
    ensures IsPipePassed(ps, birdX) <==> CountCrossed(ps, birdX) > 0
  {
    if ps != [] {
      var n := |ps| - 1;
      PassedIffCounted(ps[..n], birdX);
      if IsPipePassed(ps[..n], birdX) {
        var i :| 0 <= i < n && Crossed(ps[..n][i], birdX);
        assert Crossed(ps[i], birdX);
      }
      if IsPipePassed(ps, birdX) && !Crossed(ps[n], birdX) {
        var i :| 0 <= i < |ps| && Crossed(ps[i], birdX);
        assert ps[..n][i] == ps[i];
      }
    }
  }

  /** Every pipe is flagged except the last, which is not. */
  ghost predicate OnlyLastUnpassed(ps: seq<Pipe>) {
    ps != [] && forall j :: 0 <= j < |ps| ==> (ps[j].passed <==> j < |ps| - 1)
  }

  lemma {:induction false} AllPassedNoneCounted(ps: seq<Pipe>, birdX: real)
    requires forall j :: 0 <= j < |ps| ==> ps[j].passed
    ensures CountCrossed(ps, birdX) == 0
  {
    if ps != [] {
      AllPassedNoneCounted(ps[..|ps| - 1], birdX);
    }
  }

  /** While only the last pipe is unflagged, at most one pipe can be
      crossed in one tick, and only the last one. */
  lemma AtMostOneCrossing(ps: seq<Pipe>, birdX: real)
    requires OnlyLastUnpassed(ps)
    ensures CountCrossed(ps, birdX) == (if Crossed(ps[|ps| - 1], birdX) then 1 else 0)
  {
    AllPassedNoneCounted(ps[..|ps| - 1], birdX);
  }

  /** While only the last pipe is unflagged, one tick counts one crossing
      exactly when some pipe is crossed, and none otherwise. */
  lemma OneCrossingPerTick(ps: seq<Pipe>, birdX: real)
    requires OnlyLastUnpassed(ps)
    ensures CountCrossed(ps, birdX) == if IsPipePassed(ps, birdX) then 1 else 0
  {
    AtMostOneCrossing(ps, birdX);
    PassedIffCounted(ps, birdX);
  }

  /** Python's `any` over the list of collision results, pipe by pipe:
      true exactly when some pipe of the list collides with the bird. */
  predicate AnyCollides(ps: seq<Pipe>, bird: Bird, k: Kinematics)
    ensures AnyCollides(ps, bird, k) <==> exists i :: 0 <= i < |ps| && k.collide(ps[i], bird)
  {
    if ps == [] then false
    else
      assert forall i :: 1 <= i < |ps| ==> ps[1..][i - 1] == ps[i];
      k.collide(ps[0], bird) || AnyCollides(ps[1..], bird, k)
  }

  /** `terminated`: a pipe collides with the bird, or the bird's lower
      edge reaches the ground limit, or the bird is above the screen. */
  predicate Terminated(ps: seq<Pipe>, bird: Bird, k: Kinematics)
    ensures ps == [] ==>
              (Terminated(ps, bird, k) <==> bird.y < 0.0 || GROUND_LIMIT <= bird.y + k.birdHeight)
    ensures 0.0 <= bird.y && bird.y + k.birdHeight < GROUND_LIMIT ==>
              (Terminated(ps, bird, k) <==> exists i :: 0 <= i < |ps| && k.collide(ps[i], bird))
  {
    AnyCollides(ps, bird, k) || bird.y + k.birdHeight >= GROUND_LIMIT || bird.y < 0.0
  }

  /** The termination test, with the pipe disjunct as an existential. */
  lemma TerminatedIff(ps: seq<Pipe>, bird: Bird, k: Kinematics)
    ensures Terminated(ps, bird, k) <==>
              (exists i :: 0 <= i < |ps| && k.collide(ps[i], bird))
              || bird.y + k.birdHeight >= GROUND_LIMIT
              || bird.y < 0.0
  {}

  function Square(v: real): (s: real)
    ensures 0.0 <= s
  {
    v * v
  }

  /** Euclidean distance from the bird to the active pipe's gap, whose x
      is taken as pipe.x - 150 (the offset is added to bird.x - pipe.x). */
  function Distance(bird: Bird, active: Pipe, k: Kinematics): (d: real)
    requires k.Valid()
    ensures 0.0 <= d
  {
    k.root(Square(bird.y - GapCenterY(active)) + Square(bird.x - active.x + GAP_X_OFFSET))
  }

  /** The reward for being at distance d: 1 at the gap, 0 at 410. */
  function DistanceReward(d: real): (r: real)
    ensures 0.0 <= d ==> r <= 1.0
    ensures r == 1.0 <==> d == 0.0
    ensures 0.0 <= r <==> d <= REWARD_SCALE
  {
    (REWARD_SCALE - d) / REWARD_SCALE
  }

  /** d is no farther than the stored best, where None is infinity. */
  predicate NoFartherThan(d: real, best: Option<real>) {
    best.None? || d <= best.value
  }

  /** A stored best that is at or below another one (None is infinity). */
  predicate AtMost(a: Option<real>, b: Option<real>) {
    b.None? || (a.Some? && a.value <= b.value)
  }

  datatype Evaluation = Evaluation(reward: real, best: Option<real>)

  /** The `reward` property: a pass bonus before the termination penalty
      before the distance ratchet; it returns the reward and the new
      stored best distance. */
  function EvaluateReward(passed: bool, terminated: bool, d: real, best: Option<real>): (e: Evaluation)
    ensures e.best == best || e.best == None || e.best == Some(d)
    ensures e.best.Some? ==> AtMost(e.best, best)
    ensures e.best.None? ==> best.None? || (!passed && terminated)
    ensures e.reward in {1.0, -1.0, 0.0} || (e.best == Some(d) && e.reward == DistanceReward(d))
    ensures 0.0 <= d ==> e.reward <= 1.0
  {
    if passed then Evaluation(1.0, best)
    else if terminated then Evaluation(-1.0, None)
    else if NoFartherThan(d, best) then Evaluation(DistanceReward(d), Some(d))
    else Evaluation(0.0, best)
  }

  /** Reading the reward twice in the same state gives the same reward
      and leaves the same stored best. */
  lemma RewardIdempotent(passed: bool, terminated: bool, d: real, best: Option<real>)
    ensures var e := EvaluateReward(passed, terminated, d, best);
            EvaluateReward(passed, terminated, d, e.best) == e
  {}

  /** What one evaluation reads of the state. */
  datatype Signal = Signal(passed: bool, terminated: bool, distance: real)

  /** The stored best after evaluating the reward on each signal in turn. */
  function BestAfter(signals: seq<Signal>, best: Option<real>): Option<real> {
    if signals == [] then best
    else
      var s := signals[0];
      BestAfter(signals[1..], EvaluateReward(s.passed, s.terminated, s.distance, best).best)
  }

  /** The ratchet: across any run of evaluations none of which takes the
      termination branch, the stored best never rises. */
  lemma {:induction false} BestNeverRises(signals: seq<Signal>, best: Option<real>)
    requires forall i :: 0 <= i < |signals| ==> signals[i].passed || !signals[i].terminated
    ensures AtMost(BestAfter(signals, best), best)
  {
    if signals != [] {
      var s := signals[0];
      var next := EvaluateReward(s.passed, s.terminated, s.distance, best).best;
      BestNeverRises(signals[1..], next);
      assert AtMost(next, best);
    }
  }
}
