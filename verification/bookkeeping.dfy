/** The per-tick pipe bookkeeping of `step`, as functions of the pipe list
    before the tick: which pipes survive, what each becomes, and which
    pipe is appended. */
module Bookkeeping {
  import opened Entities
  import opened Evaluator

  /** The pipe's right edge is left of the screen. */
  predicate OffScreen(p: Pipe, width: real) {
    p.x + width < 0.0
  }

  /** One pipe's update in the loop: flagged if crossed, then moved. A
      flagged pipe stays flagged, so it is never crossed again; the gap
      does not change. */
  function Tick(p: Pipe, birdX: real, k: Kinematics): (r: Pipe)
    ensures r.passed <==> p.passed || Crossed(p, birdX)
    ensures p.passed || Crossed(p, birdX) ==> forall x :: !Crossed(r, x)
    ensures r.x == k.scroll(p.x)
    ensures r.height == p.height && r.top == p.top && r.bottom == p.bottom
  {
    p.(x := k.scroll(p.x), passed := p.passed || p.x < birdX)
  }

  /** Positions of the pipes that stay, in increasing order: only
      positions whose pipe is on screen (see KeptIndicesComplete for the
      converse). */
  function KeptIndices(ps: seq<Pipe>, width: real): (ks: seq<int>)
    ensures |ks| <= |ps|
    ensures forall j :: 0 <= j < |ks| ==> 0 <= ks[j] < |ps| && !OffScreen(ps[ks[j]], width)
    ensures forall j, l :: 0 <= j < l < |ks| ==> ks[j] < ks[l]
  {
    if ps == [] then []
    else
      var n := |ps| - 1;
      KeptIndices(ps[..n], width) + (if OffScreen(ps[n], width) then [] else [n])
  }

  /** Every position whose pipe is on screen before the move is kept:
      a pipe is removed exactly when its right edge is off-screen. */
  lemma {:induction false} KeptIndicesComplete(ps: seq<Pipe>, width: real, i: int)
    requires 0 <= i < |ps| && !OffScreen(ps[i], width)
    ensures i in KeptIndices(ps, width)
  {
    var n := |ps| - 1;
    if i < n {
      KeptIndicesComplete(ps[..n], width, i);
    }
  }

  /** The pipes that stay after the tick, each updated once, in their
      original order: the k-th survivor is the update of the pipe at the
      k-th kept position. */
  function Survivors(ps: seq<Pipe>, birdX: real, k: Kinematics): (r: seq<Pipe>)
    ensures |r| == |KeptIndices(ps, k.pipeWidth)|
    ensures forall j :: 0 <= j < |r| ==> r[j] == Tick(ps[KeptIndices(ps, k.pipeWidth)[j]], birdX, k)
  {
    if ps == [] then []
    else
      var n := |ps| - 1;
      Survivors(ps[..n], birdX, k) + (if OffScreen(ps[n], k.pipeWidth) then [] else [Tick(ps[n], birdX, k)])
  }

  /** The pipe list after a tick: the survivors, then one new pipe at the
      spawn x if some pipe was crossed. */
  function StepPipes(ps: seq<Pipe>, birdX: real, k: Kinematics, gap: Gap): (r: seq<Pipe>)
    ensures |r| <= |ps| + 1
    ensures |r| == |KeptIndices(ps, k.pipeWidth)| + (if IsPipePassed(ps, birdX) then 1 else 0)
    ensures IsPipePassed(ps, birdX) ==> r[|r| - 1] == NewPipe(SPAWN_X, gap)
  {
    Survivors(ps, birdX, k) + (if IsPipePassed(ps, birdX) then [NewPipe(SPAWN_X, gap)] else [])
  }

  /** At most one pipe is appended, and one is exactly when the tick
      counted a crossing; the appended pipe is the last one, unmoved at
      the spawn x and unflagged. */
  lemma SpawnIffCounted(ps: seq<Pipe>, birdX: real, k: Kinematics, gap: Gap)
    ensures var r := StepPipes(ps, birdX, k, gap);
            |r| == |Survivors(ps, birdX, k)| + (if CountCrossed(ps, birdX) > 0 then 1 else 0)
            && (CountCrossed(ps, birdX) > 0 ==> r[|r| - 1] == NewPipe(SPAWN_X, gap))
  {
    PassedIffCounted(ps, birdX);
  }

  /** The list with the marked positions left out, from the back. */
  function Unmarked(ps: seq<Pipe>, marks: seq<bool>): seq<Pipe>
    requires |ps| == |marks|
  {
    if ps == [] then []
    else
      var n := |ps| - 1;
      Unmarked(ps[..n], marks[..n]) + (if marks[n] then [] else [ps[n]])
  }

  /** The removal loop of `step`: every marked position is dropped, the
      rest keep their order. */
  method RemoveMarked(ps: seq<Pipe>, marks: seq<bool>) returns (kept: seq<Pipe>)
    requires |ps| == |marks|
    ensures kept == Unmarked(ps, marks)
  {
    kept := [];
    var j := 0;
    while j < |ps|
      invariant 0 <= j <= |ps|
      invariant kept == Unmarked(ps[..j], marks[..j])
    {
      if !marks[j] {
        kept := kept + [ps[j]];
      }
      assert ps[..j + 1][..j] == ps[..j];
      assert marks[..j + 1][..j] == marks[..j];
      j := j + 1;
    }
    assert ps[..j] == ps && marks[..j] == marks;
  }

  /** Removing the positions marked off-screen (before the move) from the
      updated list leaves exactly the survivors. */
  lemma {:induction false} UnmarkedAreSurvivors(before: seq<Pipe>, ticked: seq<Pipe>, marks: seq<bool>, birdX: real, k: Kinematics)
    requires |ticked| == |before| == |marks|
    requires forall j :: 0 <= j < |before| ==> ticked[j] == Tick(before[j], birdX, k)
    requires forall j :: 0 <= j < |before| ==> marks[j] == OffScreen(before[j], k.pipeWidth)
    ensures Unmarked(ticked, marks) == Survivors(before, birdX, k)
  {
    if before != [] {
      var n := |before| - 1;
      UnmarkedAreSurvivors(before[..n], ticked[..n], marks[..n], birdX, k);
    }
  }

  /** The appended pipe is never marked, so it stays at the end. */
  lemma UnmarkedAppend(ps: seq<Pipe>, marks: seq<bool>, p: Pipe)
    requires |ps| == |marks|
    ensures Unmarked(ps + [p], marks + [false]) == Unmarked(ps, marks) + [p]
  {
    assert (ps + [p])[..|ps|] == ps;
    assert (marks + [false])[..|marks|] == marks;
  }

  /** The tick keeps "every pipe flagged but the last": a crossing can
      only be of the last pipe and appends a fresh one, and without a
      crossing the last pipe is at or ahead of the bird, hence on screen,
      and stays last and unflagged. */
  lemma StepKeepsOnlyLastUnpassed(ps: seq<Pipe>, birdX: real, k: Kinematics, gap: Gap)
    requires OnlyLastUnpassed(ps)
    requires 0.0 <= birdX && 0.0 <= k.pipeWidth
    ensures OnlyLastUnpassed(StepPipes(ps, birdX, k, gap))
  {
    var n := |ps| - 1;
    var r := StepPipes(ps, birdX, k, gap);
    var s := Survivors(ps, birdX, k);
    var ks := KeptIndices(ps, k.pipeWidth);
    if IsPipePassed(ps, birdX) {
      var i :| 0 <= i < |ps| && Crossed(ps[i], birdX);
      assert i == n;
      forall j | 0 <= j < |s|
        ensures s[j].passed
      {
        assert ks[j] < n || ps[n].x < birdX;
      }
      assert r == s + [NewPipe(SPAWN_X, gap)];
    } else {
      assert !Crossed(ps[n], birdX);
      assert !OffScreen(ps[n], k.pipeWidth);
      var front := Survivors(ps[..n], birdX, k);
      assert r == front + [Tick(ps[n], birdX, k)];
      var fks := KeptIndices(ps[..n], k.pipeWidth);
      forall j | 0 <= j < |front|
        ensures front[j].passed
      {
        assert ps[..n][fks[j]].passed;
      }
    }
  }

  /** The pass bonus of one tick announces the score of the next: the
      reward sees a crossed pipe after a tick exactly when the next
      tick's walk, with the bird at the same x, flags and scores one. */
  lemma BonusAnnouncesScore(ps: seq<Pipe>, bird: Bird, action: int, k: Kinematics)
    requires k.Valid()
    ensures IsPipePassed(ps, bird.x) <==> CountCrossed(ps, NextBird(bird, action, k).x) > 0
  {
    PassedIffCounted(ps, bird.x);
  }
}
