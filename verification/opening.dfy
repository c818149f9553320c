/** How the opening rack (src/main.cpp:521-574) meets the physics: it is a
    valid starting state, and because texture unit 0 marks the cue ball, ball 0
    is the only one pocket capture ever re-spots. */
module Opening {
  import opened GameObjects
  import opened PocketCapture
  import opened Physics
  import opened Rack

  ghost predicate FreshRack(balls: seq<Ball>) {
    |balls| == 16 && forall k :: 0 <= k < |balls| ==> FreshBall(balls[k], k)
  }

  /** The rack satisfies the physics' preconditions, nothing is parked yet,
      and exactly ball 0 is the cue ball. */
  lemma RackReady(balls: seq<Ball>)
    requires FreshRack(balls)
    ensures PositiveRadii(balls) && Parked(balls)
    ensures forall k :: 0 <= k < |balls| ==> (IsCue(balls[k]) <==> k == 0)
  {
    forall k | 0 <= k < |balls|
      ensures balls[k].radius > 0.0 && balls[k].active
      ensures IsCue(balls[k]) <==> k == 0
    {
      assert FreshBall(balls[k], k);
    }
  }

  /** In any state the physics can reach from the rack, ball 0 is still in
      play and is still the only cue ball. */
  lemma CueStaysInPlay(start: seq<Ball>, after: seq<Ball>)
    requires FreshRack(start) && Successor(start, after)
    ensures after[0].active && IsCue(after[0])
    ensures forall k :: 1 <= k < |after| ==> !IsCue(after[k])
  {
    RackReady(start);
  }
}
