/** The recursive branch generator of the fractal tree (`drawTree`).

    Every call at a level not above the ceiling draws one stroke and then
    recurses twice, first to the left and then to the right. The model returns
    the strokes in the order the canvas receives them. Directions are counted
    in steps of pi/8 radians, so the trigonometry of the endpoints is not
    needed to state what is drawn.
 */
module Branches {

  /** Factor applied to a branch's length to obtain its children's length. */
  const Ratio: real := 0.75

  /** Length in pixels of the trunk drawn by the redraw routine. */
  const TrunkLength: real := 80.0

  /** Direction of the trunk in pi/8 steps: -pi/2 == -4 * pi/8, straight up on screen. */
  const TrunkDirection: int := -4

  /** One `stroke()` on the canvas: the recursion level that drew it, its
      direction in pi/8 steps, its length, its line width and the hue of its
      `hsl(...)` colour. */
  datatype Stroke = Stroke(level: int, dir: int, length: real, width: int, hue: real)

  function Pow2(n: nat): nat
  {
    if n == 0 then 1 else 2 * Pow2(n - 1)
  }

  function Pow(b: real, n: nat): real
  {
    if n == 0 then 1.0 else b * Pow(b, n - 1)
  }

  /** Hue of a stroke: the fraction of the ceiling reached, scaled to 120 degrees. */
  function Hue(level: int, maxDepth: int): real
    requires maxDepth != 0
  {
    (level as real / maxDepth as real) * 120.0
  }

  /** Line width of a stroke: thinning by one per level down to the ceiling. */
  function Width(level: int, maxDepth: int): int
  {
    maxDepth - level + 1
  }

  /** The strokes drawn by the generator called at recursion level `level`
      with ceiling `maxDepth`, direction `dir` * pi/8 and length `len`, in
      call order: the branch itself, then the whole left subtree, then the
      whole right subtree. */
  function Strokes(level: int, maxDepth: int, dir: int, len: real): seq<Stroke>
    requires level >= 1
    decreases maxDepth - level + 1
  {
    if level > maxDepth then []
    else
      [Stroke(level, dir, len, Width(level, maxDepth), Hue(level, maxDepth))]
      + Strokes(level + 1, maxDepth, dir - 1, len * Ratio)
      + Strokes(level + 1, maxDepth, dir + 1, len * Ratio)
  }

  /** What every stroke of the subtree rooted at (level, dir, len) satisfies:
      its level lies between the root's and the ceiling, its width and hue are
      the ones of its level, its length has decayed once per level below the
      root, and its direction differs from the root's by at most one step per
      level, with the parity of that number of levels. */
  ghost predicate InSubtree(s: Stroke, level: int, maxDepth: int, dir: int, len: real)
  {
    1 <= level <= s.level <= maxDepth
    && s.width == Width(s.level, maxDepth)
    && s.hue == Hue(s.level, maxDepth)
    && s.length == len * Pow(Ratio, s.level - level)
    && -(s.level - level) <= s.dir - dir <= s.level - level
    && (s.dir - dir + (s.level - level)) % 2 == 0
  }

  /** Number of strokes of a sequence drawn at a given level. */
  function LevelCount(strokes: seq<Stroke>, level: int): nat
  {
    if strokes == [] then 0
    else (if strokes[0].level == level then 1 else 0) + LevelCount(strokes[1..], level)
  }

  lemma {:induction false} LevelCountAppend(a: seq<Stroke>, b: seq<Stroke>, level: int)
    ensures LevelCount(a + b, level) == LevelCount(a, level) + LevelCount(b, level)
  {
    if a != [] {
      assert (a + b)[0] == a[0];
      assert (a + b)[1..] == a[1..] + b;
      LevelCountAppend(a[1..], b, level);
    } else {
      assert a + b == b;
    }
  }

  lemma {:induction false} Pow2Grows(n: nat)
    ensures Pow2(n) >= n + 1
  {
    if n > 0 {
      Pow2Grows(n - 1);
    }
  }

  /** The number of strokes: none above the ceiling, otherwise a full binary
      tree of height maxDepth - level + 1. */
  lemma {:induction false} StrokeCount(level: int, maxDepth: int, dir: int, len: real)
    requires level >= 1
    ensures |Strokes(level, maxDepth, dir, len)|
            == if level > maxDepth then 0 else Pow2(maxDepth - level + 1) - 1
    decreases maxDepth - level + 1
  {
    if level <= maxDepth {
      StrokeCount(level + 1, maxDepth, dir - 1, len * Ratio);
      StrokeCount(level + 1, maxDepth, dir + 1, len * Ratio);
    }
  }

  /** A call at level 1 with ceiling maxDepth >= 0 draws 2^maxDepth - 1 strokes. */
  lemma TreeStrokeCount(maxDepth: int, dir: int, len: real)
    ensures |Strokes(1, maxDepth, dir, len)| == if maxDepth >= 0 then Pow2(maxDepth) - 1 else 0
  {
    StrokeCount(1, maxDepth, dir, len);
  }

  lemma LiftInSubtree(s: Stroke, level: int, maxDepth: int, dir: int, step: int, len: real)
    requires level >= 1
    requires step == -1 || step == 1
    requires InSubtree(s, level + 1, maxDepth, dir + step, len * Ratio)
    ensures InSubtree(s, level, maxDepth, dir, len)
  {
    var k := s.level - level;
    assert Pow(Ratio, k) == Ratio * Pow(Ratio, k - 1);
  }

  /** Every stroke of a subtree has the width, hue, length and direction its
      level dictates; in particular its width is at least 1. */
  lemma {:induction false} StrokeShape(level: int, maxDepth: int, dir: int, len: real)
    requires level >= 1
    ensures forall s :: s in Strokes(level, maxDepth, dir, len) ==>
              InSubtree(s, level, maxDepth, dir, len) && s.width >= 1
    decreases maxDepth - level + 1
  {
    if level <= maxDepth {
      var left := Strokes(level + 1, maxDepth, dir - 1, len * Ratio);
      var right := Strokes(level + 1, maxDepth, dir + 1, len * Ratio);
      StrokeShape(level + 1, maxDepth, dir - 1, len * Ratio);
      StrokeShape(level + 1, maxDepth, dir + 1, len * Ratio);
      forall s | s in left ensures InSubtree(s, level, maxDepth, dir, len) {
        LiftInSubtree(s, level, maxDepth, dir, -1, len);
      }
      forall s | s in right ensures InSubtree(s, level, maxDepth, dir, len) {
        LiftInSubtree(s, level, maxDepth, dir, 1, len);
      }
    }
  }

  /** A subtree rooted at `level` draws 2^(target - level) strokes at every
      level `target` up to the ceiling, and none elsewhere. */
  lemma {:induction false} StrokesPerLevel(level: int, maxDepth: int, dir: int, len: real, target: int)
    requires level >= 1
    ensures LevelCount(Strokes(level, maxDepth, dir, len), target)
            == if level <= target <= maxDepth then Pow2(target - level) else 0
    decreases maxDepth - level + 1
  {
    if level <= maxDepth {
      var root := [Stroke(level, dir, len, Width(level, maxDepth), Hue(level, maxDepth))];
      var left := Strokes(level + 1, maxDepth, dir - 1, len * Ratio);
      var right := Strokes(level + 1, maxDepth, dir + 1, len * Ratio);
      LevelCountAppend(root + left, right, target);
      LevelCountAppend(root, left, target);
      assert LevelCount(root, target) == if target == level then 1 else 0 by {
        assert root[1..] == [];
      }
      StrokesPerLevel(level + 1, maxDepth, dir - 1, len * Ratio, target);
      StrokesPerLevel(level + 1, maxDepth, dir + 1, len * Ratio, target);
    }
  }

  /** Preorder: a branch is drawn first, then its entire left subtree, then its
      entire right subtree, the two subtrees being of equal size. */
  lemma PreorderLayout(level: int, maxDepth: int, dir: int, len: real)
    requires 1 <= level <= maxDepth
    ensures var r := Strokes(level, maxDepth, dir, len);
            var n := Pow2(maxDepth - level) - 1;
            |r| == 2 * n + 1
            && r[0] == Stroke(level, dir, len, maxDepth - level + 1, Hue(level, maxDepth))
            && r[1..n + 1] == Strokes(level + 1, maxDepth, dir - 1, len * Ratio)
            && r[n + 1..] == Strokes(level + 1, maxDepth, dir + 1, len * Ratio)
  {
    StrokeCount(level + 1, maxDepth, dir - 1, len * Ratio);
    StrokeCount(level + 1, maxDepth, dir + 1, len * Ratio);
  }

  /** Depth first, left first: the first strokes drawn are the leftmost path
      from the root down to the ceiling, one step further left per level. */
  lemma {:induction false} LeftmostPathFirst(level: int, maxDepth: int, dir: int, len: real, i: nat)
    requires 1 <= level && level + i <= maxDepth
    ensures var r := Strokes(level, maxDepth, dir, len);
            i < |r|
            && r[i] == Stroke(level + i, dir - i, len * Pow(Ratio, i),
                              maxDepth - level - i + 1, Hue(level + i, maxDepth))
    decreases i
  {
    PreorderLayout(level, maxDepth, dir, len);
    if i > 0 {
      var r := Strokes(level, maxDepth, dir, len);
      var n := Pow2(maxDepth - level) - 1;
      Pow2Grows(maxDepth - level);
      LeftmostPathFirst(level + 1, maxDepth, dir - 1, len * Ratio, i - 1);
      assert r[i] == r[1..n + 1][i - 1];
      assert Pow(Ratio, i) == Ratio * Pow(Ratio, i - 1);
    }
  }

  /** The last stroke drawn is the tip of the rightmost path, at the ceiling. */
  lemma {:induction false} RightmostTipLast(level: int, maxDepth: int, dir: int, len: real)
    requires 1 <= level <= maxDepth
    ensures var r := Strokes(level, maxDepth, dir, len);
            |r| > 0
            && r[|r| - 1] == Stroke(maxDepth, dir + (maxDepth - level),
                                    len * Pow(Ratio, maxDepth - level), 1, 120.0)
    decreases maxDepth - level
  {
    PreorderLayout(level, maxDepth, dir, len);
    var r := Strokes(level, maxDepth, dir, len);
    if level < maxDepth {
      var n := Pow2(maxDepth - level) - 1;
      var right := Strokes(level + 1, maxDepth, dir + 1, len * Ratio);
      RightmostTipLast(level + 1, maxDepth, dir + 1, len * Ratio);
      assert r[|r| - 1] == right[|right| - 1];
      assert Pow(Ratio, maxDepth - level) == Ratio * Pow(Ratio, maxDepth - level - 1);
    }
  }

  /** Hues lie in (0, 120] for levels 1..maxDepth, reach 120 exactly at the
      ceiling and strictly increase with the level. */
  lemma HueRange(level: int, maxDepth: int)
    requires 1 <= level <= maxDepth
    ensures 0.0 < Hue(level, maxDepth) <= 120.0
    ensures Hue(maxDepth, maxDepth) == 120.0
  {
  }

  lemma HueIncreasing(lower: int, upper: int, maxDepth: int)
    requires 1 <= lower < upper <= maxDepth
    ensures Hue(lower, maxDepth) < Hue(upper, maxDepth)
  {
  }
}
