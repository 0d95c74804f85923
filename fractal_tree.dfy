/** The fractal tree component: its `depth` state, the Grow button that
    raises it, and the redraw that draws the tree from the bottom centre of
    the canvas with `depth` as the ceiling.
 */
module FractalTree {
  import opened Branches

  /** Initial value of the `depth` state. */
  const InitialDepth: int := 1

  /** Cap applied by the Grow button. */
  const MaxGrowth: int := 50

  function Min(a: int, b: int): int
  {
    if a <= b then a else b
  }

  /** The updater the Grow button hands to `setDepth`. */
  function Grown(depth: int): int
  {
    Min(depth + 1, MaxGrowth)
  }

  /** The `depth` state after `n` presses of Grow from the initial state. */
  function DepthAfterGrows(n: nat): int
  {
    if n == 0 then InitialDepth else Grown(DepthAfterGrows(n - 1))
  }

  /** Grow keeps the depth in [1, MaxGrowth], never lowers it, adds one below
      the cap and leaves the cap unchanged. */
  lemma GrownStep(depth: int)
    requires 1 <= depth <= MaxGrowth
    ensures 1 <= Grown(depth) <= MaxGrowth
    ensures depth <= Grown(depth)
    ensures depth < MaxGrowth ==> Grown(depth) == depth + 1
    ensures Grown(depth) == depth <==> depth == MaxGrowth
  {
  }

  /** After n presses the depth is min(1 + n, 50). */
  lemma {:induction false} DepthAfterGrowsClosedForm(n: nat)
    ensures DepthAfterGrows(n) == Min(InitialDepth + n, MaxGrowth)
    ensures 1 <= DepthAfterGrows(n) <= MaxGrowth
  {
    if n > 0 {
      DepthAfterGrowsClosedForm(n - 1);
    }
  }

  /** Pressing Grow more often never gives a smaller depth. */
  lemma {:induction false} DepthAfterGrowsMonotone(m: nat, n: nat)
    requires m <= n
    ensures DepthAfterGrows(m) <= DepthAfterGrows(n)
  {
    DepthAfterGrowsClosedForm(m);
    DepthAfterGrowsClosedForm(n);
  }

  /** One redraw of the canvas: the anchor of the trunk (bottom centre) and
      the strokes drawn, in order. */
  datatype Frame = Frame(anchorX: real, anchorY: real, strokes: seq<Stroke>)

  /** What the resize/redraw routine draws on a canvas of the given size with the
      current `depth`. */
  function Render(depth: int, width: nat, height: nat): Frame
  {
    Frame(width as real / 2.0, height as real, Strokes(1, depth, TrunkDirection, TrunkLength))
  }

  /** A redraw with depth d >= 1 anchors the trunk at the bottom centre, draws
      2^d - 1 strokes, starts with the upright trunk of length 80 and, at
      every level L, draws strokes of length 80 * 0.75^(L - 1), width
      d - L + 1 >= 1 and hue L/d * 120 in (0, 120]. */
  lemma RenderShape(depth: int, width: nat, height: nat)
    requires depth >= 1
    ensures var f := Render(depth, width, height);
            f.anchorX == width as real / 2.0 && f.anchorY == height as real
            && |f.strokes| == Pow2(depth) - 1
            && f.strokes[0] == Stroke(1, TrunkDirection, TrunkLength, depth, Hue(1, depth))
            && forall s :: s in f.strokes ==>
                 1 <= s.level <= depth
                 && s.length == TrunkLength * Pow(Ratio, s.level - 1)
                 && s.width == depth - s.level + 1 >= 1
                 && s.hue == Hue(s.level, depth)
                 && 0.0 < s.hue <= 120.0
  {
    var f := Render(depth, width, height);
    TreeStrokeCount(depth, TrunkDirection, TrunkLength);
    PreorderLayout(1, depth, TrunkDirection, TrunkLength);
    StrokeShape(1, depth, TrunkDirection, TrunkLength);
    forall s | s in f.strokes
      ensures 1 <= s.level <= depth
      ensures s.length == TrunkLength * Pow(Ratio, s.level - 1)
      ensures s.width == depth - s.level + 1 >= 1
      ensures s.hue == Hue(s.level, depth)
      ensures 0.0 < s.hue <= 120.0
    {
      assert InSubtree(s, 1, depth, TrunkDirection, TrunkLength);
      HueRange(s.level, depth);
    }
  }

  /** A redraw after n presses of Grow from the start draws
      2^min(1 + n, 50) - 1 strokes. */
  lemma RenderAfterGrows(n: nat, width: nat, height: nat)
    ensures |Render(DepthAfterGrows(n), width, height).strokes|
            == Pow2(Min(InitialDepth + n, MaxGrowth)) - 1
  {
    DepthAfterGrowsClosedForm(n);
    TreeStrokeCount(DepthAfterGrows(n), TrunkDirection, TrunkLength);
  }

  /** A canvas of 800 x 600 at depth 3: seven strokes anchored at (400, 600),
      in preorder; the two branches of width 2 and hue 80 are at indices 1
      and 4, the four tips of width 1 and hue 120 at indices 2, 3, 5 and 6. */
  lemma SmallTreeExample()
    ensures var f := Render(3, 800, 600);
            f.anchorX == 400.0 && f.anchorY == 600.0
            && |f.strokes| == 7
            && f.strokes[0] == Stroke(1, -4, 80.0, 3, 40.0)
            && f.strokes[1] == Stroke(2, -5, 60.0, 2, 80.0)
            && f.strokes[2] == Stroke(3, -6, 45.0, 1, 120.0)
            && f.strokes[3] == Stroke(3, -4, 45.0, 1, 120.0)
            && f.strokes[4] == Stroke(2, -3, 60.0, 2, 80.0)
            && f.strokes[5] == Stroke(3, -4, 45.0, 1, 120.0)
            && f.strokes[6] == Stroke(3, -2, 45.0, 1, 120.0)
  {
    var f := Render(3, 800, 600);
    TreeStrokeCount(3, TrunkDirection, TrunkLength);
    LeftmostPathFirst(1, 3, TrunkDirection, TrunkLength, 1);
    LeftmostPathFirst(1, 3, TrunkDirection, TrunkLength, 2);
    RightmostTipLast(1, 3, TrunkDirection, TrunkLength);
    PreorderLayout(1, 3, TrunkDirection, TrunkLength);
    PreorderLayout(2, 3, -5, 60.0);
    PreorderLayout(2, 3, -3, 60.0);
  }

  /** The component's mutable state. `grows` counts the presses of Grow so
      far; it exists for the proofs only. */
  class TreeState {
    var depth: int
    ghost var grows: nat

    ghost predicate Valid()
      reads this
    {
      1 <= depth <= MaxGrowth && depth == DepthAfterGrows(grows)
    }

    /** The state as the component mounts: depth 1, no press yet. */
    constructor ()
      ensures Valid() && depth == InitialDepth && grows == 0
    {
      depth := InitialDepth;
      grows := 0;
    }

    /** The Grow button: one more level, capped at MaxGrowth. */
    method Grow()
      requires Valid()
      modifies this
      ensures Valid()
      ensures depth == Min(old(depth) + 1, MaxGrowth)
      ensures grows == old(grows) + 1
      ensures old(depth) <= depth
      ensures old(depth) == MaxGrowth ==> depth == MaxGrowth
    {
      GrownStep(depth);
      depth := Grown(depth);
      grows := grows + 1;
    }

    /** The resize/redraw routine: draws the tree at level 1 with the current depth as
        its ceiling, 2^depth - 1 strokes, which after n presses of Grow is
        2^min(1 + n, 50) - 1. */
    method Redraw(width: nat, height: nat) returns (frame: Frame)
      requires Valid()
      ensures frame == Render(depth, width, height)
      ensures frame.anchorX == width as real / 2.0 && frame.anchorY == height as real
      ensures |frame.strokes| == Pow2(depth) - 1
      ensures |frame.strokes| == Pow2(Min(InitialDepth + grows, MaxGrowth)) - 1
    {
      frame := Render(depth, width, height);
      RenderShape(depth, width, height);
      RenderAfterGrows(grows, width, height);
    }
  }
}
