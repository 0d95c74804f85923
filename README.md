# Fractal tree: a Dafny model

This project models the fractal tree component of the `matik` web app in Dafny.
The component draws a binary tree of line strokes on a canvas. A Grow button
adds one level of recursion, up to 50.

The model has two modules:

- `Branches` (`branches.dfy`) models the recursive branch generator. It is a
  pure function `Strokes(level, maxDepth, dir, len)` that returns the strokes
  in the order the canvas receives them. Each `Stroke` records its recursion
  level, its direction, its length, its line width and its hue.
  - The direction is an integer count of pi/8 steps. The trunk points at
    -4 (that is, -pi/2, straight up). A left child is at `dir - 1` and a right
    child at `dir + 1`.
  - The length is an exact `real` that shrinks by 0.75 per level.
  - The width is `maxDepth - level + 1`.
  - The hue is `level / maxDepth * 120`.
- `FractalTree` (`fractal_tree.dfy`) models the component itself.
  - `Render` is the redraw. It anchors the trunk at the bottom centre of a
    canvas of the given size, with length 80, direction -4, level 1 and the
    current depth as the ceiling.
  - The class `TreeState` holds the mutable `depth` state.
    - Its method `Grow` sets `depth` to `min(depth + 1, 50)`.
    - Its method `Redraw` reads the current depth and draws the tree.
    - A ghost counter `grows` records how often Grow was pressed, for the
      proofs. `Valid()` ties `depth` to `DepthAfterGrows(grows)`.

The drawing parameters are constants of the code:

- The trunk is 80 pixels long (src/components/fractal-tree.tsx:49).
- Grow stops at the constant 50 (src/components/fractal-tree.tsx:65).
- The angle step pi/8 and the length ratio 0.75 are constants
  (src/components/fractal-tree.tsx:33-35).

## Model

| member | source | states |
|---|---|---|
| `Branches.StrokeCount` | src/components/fractal-tree.tsx:21-35 | from level d with ceiling M the generator emits nothing when d > M (the base case) and otherwise exactly 2^(M-d+1) - 1 strokes |
| `Branches.TreeStrokeCount` | src/components/fractal-tree.tsx:21-35 | starting at level 1 with ceiling M >= 0 exactly 2^M - 1 strokes are emitted, and none for M < 0 |
| `Branches.StrokeShape` | src/components/fractal-tree.tsx:21-35 | every emitted stroke has a level between the starting level and the ceiling, width M - level + 1 (always >= 1), hue level/M * 120, and length len * 0.75^(level - start); its direction is within (level - start) pi/8 steps of the start, with the same parity |
| `Branches.StrokesPerLevel` | src/components/fractal-tree.tsx:33-35 | a subtree rooted at level d emits exactly 2^(L-d) strokes at each level L with d <= L <= M, and none at any other level |
| `Branches.PreorderLayout` | src/components/fractal-tree.tsx:26-35 | the branch's own stroke comes first; next comes the whole left subtree (direction - pi/8, length * 0.75); the whole right subtree (direction + pi/8) comes last; both subtrees have 2^(M-d) - 1 strokes |
| `Branches.LeftmostPathFirst` | src/components/fractal-tree.tsx:33-34 | the first M - d + 1 strokes are the leftmost path: stroke i is at level d + i, direction dir - i and length len * 0.75^i |
| `Branches.RightmostTipLast` | src/components/fractal-tree.tsx:33-35 | the last stroke is the rightmost tip: level M, direction dir + (M - d), width 1, hue 120 |
| `Branches.HueRange` | src/components/fractal-tree.tsx:29 | for 1 <= level <= M the hue lies in (0, 120] and equals 120 exactly at the ceiling |
| `Branches.HueIncreasing` | src/components/fractal-tree.tsx:29 | for a fixed ceiling the hue strictly increases with the level |
| `FractalTree.GrownStep` | src/components/fractal-tree.tsx:65 | for a depth in [1, 50], Grow keeps it in [1, 50] and never decreases it; it adds one below 50 and leaves the depth unchanged exactly at 50 |
| `FractalTree.DepthAfterGrowsClosedForm` | src/components/fractal-tree.tsx:65 | starting from the initial depth 1, after n presses of Grow the depth is min(1 + n, 50), so it is always in [1, 50] |
| `FractalTree.DepthAfterGrowsMonotone` | src/components/fractal-tree.tsx:65 | more presses of Grow never give a smaller depth |
| `FractalTree.RenderShape` | src/components/fractal-tree.tsx:45-50 | a redraw at depth d >= 1 anchors the tree at (width/2, height) and emits 2^d - 1 strokes; the first is the trunk (level 1, direction -pi/2, length 80, width d); each stroke at level L has length 80 * 0.75^(L-1), width d - L + 1 >= 1 and hue L/d * 120 in (0, 120] |
| `FractalTree.RenderAfterGrows` | src/components/fractal-tree.tsx:49 | a redraw after n presses of Grow from the start emits 2^min(1 + n, 50) - 1 strokes |
| `FractalTree.SmallTreeExample` | src/components/fractal-tree.tsx:49 | on an 800 x 600 canvas at depth 3 the redraw emits 7 strokes anchored at (400, 600), in preorder: the trunk (length 80, width 3, hue 40); the left branch (direction -5, length 60, width 2, hue 80) and its two tips (directions -6 and -4); then the right branch (direction -3) and its two tips (directions -4 and -2); every tip has length 45, width 1 and hue 120 |
| `FractalTree.TreeState.constructor` | src/components/fractal-tree.tsx:9 | the depth state starts at 1 and satisfies the invariant 1 <= depth <= 50 |
| `FractalTree.TreeState.Grow` | src/components/fractal-tree.tsx:65 | the new depth is min(old depth + 1, 50); the invariant is kept; the depth never decreases; at 50 it stays at 50 |
| `FractalTree.TreeState.Redraw` | src/components/fractal-tree.tsx:45-50 | the redraw uses level 1 and the current depth as the ceiling; it anchors at (width/2, height) and emits 2^depth - 1 strokes, which after n presses of Grow is 2^min(1 + n, 50) - 1; the state is not changed |

## Left out

- Endpoint coordinates (src/components/fractal-tree.tsx:23-24): they need floating-point `cos` and `sin`. The model keeps each stroke's direction as a whole number of pi/8 steps instead. The anchor of the trunk is kept, as a real.
- Floating-point rounding: lengths, hues and the anchor are exact reals. Hue and length therefore match JavaScript's doubles up to rounding. Deep lengths such as 80 * 0.75^40 are not exactly representable as doubles.
- Formatting of the colour into an `hsl(...)` string, and the fixed 70% saturation and 50% lightness: these are canvas I/O. Only the hue is kept.
- Canvas calls (path building, stroking, clearing): drawing I/O. Each drawn segment becomes one `Stroke` record.
- React and DOM plumbing (src/components/fractal-tree.tsx:38-56): the effect hook, the canvas reference, the null checks on the canvas and its context, and the resize listener. The window's size becomes the `width` and `height` parameters of `Render` and `TreeState.Redraw`.
- The `angle` state (src/components/fractal-tree.tsx:10): it is never updated. The generator never reads it, because its own parameter of the same name shadows it. It only appears in the effect's dependency list, so it has no effect on what is drawn.
- JSX, the button, the icons and the depth label (src/components/fractal-tree.tsx:58-77): presentation only.
- src/app/page.tsx is not part of this model: it only renders the component.
- Branches.Strokes: requires level >= 1, as at every call site (the redraw passes 1 and each recursion adds 1). A direct call with a level <= 0 and ceiling 0 would divide by zero when computing the hue, which gives NaN in JavaScript. The model does not represent NaN.
