/** The pixel-grid helpers of the sprite analysis: the highlight colours,
    the search for the first pixel that differs from the corner, the set of
    colours in one block of the grid and the repainting of a block, and the
    definitions that say which block of a scan holds a pixel and what colour
    the half-pixel highlight gives it. Images are two-dimensional arrays
    indexed `[x, y]`, as the image library indexes them. */
module PixelScans {
  import opened Wrappers
  import opened Palette
  import Text

  const Pink := Channels([255, 0, 255, 255])
  const Black := Channels([0, 0, 0, 255])
  const White := Channels([255, 255, 255, 255])
  const Red := Channels([255, 0, 0, 255])
  const Green := Channels([0, 255, 0, 255])
  /** What every pixel of a fresh RGBA image holds. */
  const Clear := Channels([0, 0, 0, 0])

  /** `is_half_transparent`. */
  predicate IsHalfTransparent(alpha: int) {
    alpha != 0 && alpha != 255
  }

  /** `is_transparent`. */
  predicate IsTransparent(alpha: int) {
    alpha == 0
  }

  /** The colour a block scan counts for a pixel: every fully transparent
      four-channel pixel, whatever its colour channels, is (0, 0, 0, 0). */
  function Canonical(p: Color): Color {
    if p.Channels? && |p.values| == 4 && p.values[3] == 0 then Clear else p
  }

  // ---------------------------------------------------------------------
  // First differing pixel
  // ---------------------------------------------------------------------

  /** Position `(x', y')` comes before `(x, y)` in the scan order, which runs
      through `y` for each `x`. */
  predicate Before(x': int, y': int, x: int, y: int) {
    x' < x || (x' == x && y' < y)
  }

  /** The first position from `(x, y)` on, in scan order, whose pixel
      differs from the corner pixel. */
  function FirstDiffFrom(pixels: array2<Color>, n: nat, x: nat, y: nat): Option<(nat, nat)>
    reads pixels
    requires 0 < n <= pixels.Length0 && n <= pixels.Length1 && x <= n && y <= n
    decreases n - x, n - y
  {
    if x == n then None
    else if y == n then FirstDiffFrom(pixels, n, x + 1, 0)
    else if pixels[x, y] != pixels[0, 0] then Some((x, y))
    else FirstDiffFrom(pixels, n, x, y + 1)
  }

  lemma FirstDiffFromSpec(pixels: array2<Color>, n: nat, x0: nat, y0: nat)
    requires 0 < n <= pixels.Length0 && n <= pixels.Length1 && x0 <= n && y0 <= n
    decreases n - x0, n - y0
    ensures FirstDiffFrom(pixels, n, x0, y0).Some? ==>
      var (x, y) := FirstDiffFrom(pixels, n, x0, y0).value;
      x < n && y < n && !Before(x, y, x0, y0) && pixels[x, y] != pixels[0, 0]
      && forall x', y' :: 0 <= x' < n && 0 <= y' < n && !Before(x', y', x0, y0) && Before(x', y', x, y)
           ==> pixels[x', y'] == pixels[0, 0]
    ensures FirstDiffFrom(pixels, n, x0, y0).None? ==>
      forall x', y' :: 0 <= x' < n && 0 <= y' < n && !Before(x', y', x0, y0) ==> pixels[x', y'] == pixels[0, 0]
  {
    if x0 == n {
    } else if y0 == n {
      FirstDiffFromSpec(pixels, n, x0 + 1, 0);
    } else if pixels[x0, y0] != pixels[0, 0] {
    } else {
      FirstDiffFromSpec(pixels, n, x0, y0 + 1);
    }
  }

  /** The grid offset of the lax scan: the first differing pixel's position
      modulo 3 (whatever the block size), or the corner when every pixel is
      the same. */
  function FirstOffset(pixels: array2<Color>, n: nat): (nat, nat)
    reads pixels
    requires 0 < n <= pixels.Length0 && n <= pixels.Length1
  {
    match FirstDiffFrom(pixels, n, 0, 0)
    case None => (0, 0)
    case Some((x, y)) => (x % 3, y % 3)
  }

  /** The offset is below 3 in both directions; it is the first differing
      pixel's position modulo 3, or (0, 0) when there is none. */
  lemma FirstOffsetSpec(pixels: array2<Color>, n: nat)
    requires 0 < n <= pixels.Length0 && n <= pixels.Length1
    ensures FirstOffset(pixels, n).0 < 3 && FirstOffset(pixels, n).1 < 3
    ensures (forall x, y :: 0 <= x < n && 0 <= y < n ==> pixels[x, y] == pixels[0, 0])
      ==> FirstOffset(pixels, n) == (0, 0)
    ensures forall x, y ::
      (0 <= x < n && 0 <= y < n && pixels[x, y] != pixels[0, 0]
       && (forall x', y' :: 0 <= x' < n && 0 <= y' < n && Before(x', y', x, y) ==> pixels[x', y'] == pixels[0, 0]))
      ==> FirstOffset(pixels, n) == (x % 3, y % 3)
  {
    FirstDiffFromSpec(pixels, n, 0, 0);
    if FirstDiffFrom(pixels, n, 0, 0).Some? {
      var (fx, fy) := FirstDiffFrom(pixels, n, 0, 0).value;
      forall x, y | 0 <= x < n && 0 <= y < n && pixels[x, y] != pixels[0, 0]
        && (forall x', y' :: 0 <= x' < n && 0 <= y' < n && Before(x', y', x, y) ==> pixels[x', y'] == pixels[0, 0])
        ensures (fx, fy) == (x, y)
      {
        if Before(fx, fy, x, y) {
        } else if Before(x, y, fx, fy) {
        }
      }
    }
  }

  /** `find_first_pixel`: scans in order for the first pixel that differs
      from the corner and returns its position modulo 3. */
  method FindFirstPixel(pixels: array2<Color>, maxSize: nat) returns (di: nat, dj: nat)
    requires 0 < maxSize <= pixels.Length0 && maxSize <= pixels.Length1
    ensures (di, dj) == FirstOffset(pixels, maxSize)
  {
    var defaultValue := pixels[0, 0];
    var i := 0;
    while i < maxSize
      invariant 0 <= i <= maxSize
      invariant FirstDiffFrom(pixels, maxSize, i, 0) == FirstDiffFrom(pixels, maxSize, 0, 0)
    {
      var j := 0;
      while j < maxSize
        invariant 0 <= j <= maxSize
        invariant FirstDiffFrom(pixels, maxSize, i, j) == FirstDiffFrom(pixels, maxSize, 0, 0)
      {
        if defaultValue != pixels[i, j] {
          return i % 3, j % 3;
        }
        j := j + 1;
      }
      i := i + 1;
    }
    return 0, 0;
  }

  // ---------------------------------------------------------------------
  // One block
  // ---------------------------------------------------------------------

  /** Some pixel of the `step` by `step` block at `(i, j)` counts as `c`. */
  ghost predicate BlockHas(pixels: array2<Color>, i: nat, j: nat, step: nat, c: Color)
    reads pixels
    requires i + step <= pixels.Length0 && j + step <= pixels.Length1
  {
    exists x, y :: i <= x < i + step && j <= y < j + step && Canonical(pixels[x, y]) == c
  }

  /** `get_color_set`: the colours of the block, fully transparent pixels
      counted as one. */
  method GetColorSet(i: nat, j: nat, pixels: array2<Color>, step: nat) returns (colorSet: set<Color>)
    requires i + step <= pixels.Length0 && j + step <= pixels.Length1
    ensures forall c :: c in colorSet <==> BlockHas(pixels, i, j, step, c)
  {
    colorSet := {};
    var incrementI := 0;
    while incrementI < step
      invariant 0 <= incrementI <= step
      invariant forall c :: c in colorSet <==>
        exists x, y :: i <= x < i + incrementI && j <= y < j + step && Canonical(pixels[x, y]) == c
    {
      var incrementJ := 0;
      while incrementJ < step
        invariant 0 <= incrementJ <= step
        invariant forall c :: c in colorSet <==>
          exists x, y :: ((i <= x < i + incrementI && j <= y < j + step) || (x == i + incrementI && j <= y < j + incrementJ))
            && Canonical(pixels[x, y]) == c
      {
        var localI := i + incrementI;
        var localJ := j + incrementJ;
        var pixel := pixels[localI, localJ];
        if pixel.Channels? && |pixel.values| == 4 && pixel.values[3] == 0 {
          pixel := Clear;
        }
        colorSet := colorSet + {pixel};
        incrementJ := incrementJ + 1;
      }
      incrementI := incrementI + 1;
    }
  }

  /** Some pixel of the block counts as a different colour from its corner
      pixel (positions past the image's edge are not looked at). */
  ghost predicate MixedBlock(pixels: array2<Color>, i: int, j: int, step: nat)
    reads pixels
    requires 0 <= i < pixels.Length0 && 0 <= j < pixels.Length1
  {
    exists x, y :: i <= x < i + step && j <= y < j + step && x < pixels.Length0 && y < pixels.Length1
      && Canonical(pixels[x, y]) != Canonical(pixels[i, j])
  }

  /** A block's colour set has more than one element exactly when the block
      is mixed. */
  lemma ColorSetSize(pixels: array2<Color>, i: nat, j: nat, step: nat, colorSet: set<Color>)
    requires 1 <= step && i + step <= pixels.Length0 && j + step <= pixels.Length1
    requires forall c :: c in colorSet <==> BlockHas(pixels, i, j, step, c)
    ensures |colorSet| > 1 <==> MixedBlock(pixels, i, j, step)
  {
    var c0 := Canonical(pixels[i, j]);
    assert BlockHas(pixels, i, j, step, c0);
    assert c0 in colorSet;
    if MixedBlock(pixels, i, j, step) {
      var x, y :| i <= x < i + step && j <= y < j + step && x < pixels.Length0 && y < pixels.Length1
        && Canonical(pixels[x, y]) != c0;
      var c1 := Canonical(pixels[x, y]);
      assert BlockHas(pixels, i, j, step, c1);
      assert c1 in colorSet;
      assert {c0, c1} <= colorSet;
      assert |{c0, c1}| == 2;
      Text.SubsetSize({c0, c1}, colorSet);
    }
    if |colorSet| > 1 {
      var rest := colorSet - {c0};
      assert |rest| >= 1;
      var c1 :| c1 in rest;
      assert BlockHas(pixels, i, j, step, c1);
    }
  }

  /** `get_color_from_set`: red for a block of more than one colour, green
      otherwise. */
  function GetColorFromSet(colorSet: set<Color>): Color {
    if |colorSet| > 1 then Red else Green
  }

  /** The highlight colour of a block. */
  ghost function BlockColor(pixels: array2<Color>, i: int, j: int, step: nat): Color
    reads pixels
    requires 0 <= i < pixels.Length0 && 0 <= j < pixels.Length1
  {
    if MixedBlock(pixels, i, j, step) then Red else Green
  }

  /** `recolor_pixels`: paints the `step` by `step` block at `(i, j)`. */
  method RecolorPixels(i: nat, j: nat, pixels: array2<Color>, color: Color, step: nat)
    requires i + step <= pixels.Length0 && j + step <= pixels.Length1
    modifies pixels
    ensures forall x, y :: 0 <= x < pixels.Length0 && 0 <= y < pixels.Length1 ==>
      pixels[x, y] == if i <= x < i + step && j <= y < j + step then color else old(pixels[x, y])
  {
    var incrementI := 0;
    while incrementI < step
      invariant 0 <= incrementI <= step
      invariant forall x, y :: 0 <= x < pixels.Length0 && 0 <= y < pixels.Length1 ==>
        pixels[x, y] == if i <= x < i + incrementI && j <= y < j + step then color else old(pixels[x, y])
    {
      var incrementJ := 0;
      while incrementJ < step
        invariant 0 <= incrementJ <= step
        invariant forall x, y :: 0 <= x < pixels.Length0 && 0 <= y < pixels.Length1 ==>
          pixels[x, y] == if (i <= x < i + incrementI && j <= y < j + step)
                             || (x == i + incrementI && j <= y < j + incrementJ)
                          then color else old(pixels[x, y])
      {
        var localI := i + incrementI;
        var localJ := j + incrementJ;
        pixels[localI, localJ] := color;
        incrementJ := incrementJ + 1;
      }
      incrementI := incrementI + 1;
    }
  }

  // ---------------------------------------------------------------------
  // The block grid of a scan
  // ---------------------------------------------------------------------

  /** `i` is one of `start, start + step, start + 2 * step, ...`. */
  predicate Reaches(start: int, i: int, step: nat)
    requires step >= 1
    decreases i - start
  {
    start == i || (start < i && Reaches(start + step, i, step))
  }

  /** The member of `range(start, stop, step)` whose block holds `x`. */
  function BlockOf(x: int, start: int, stop: int, step: nat): (r: Option<int>)
    requires step >= 1
    decreases stop - start
    ensures r.Some? ==> Reaches(start, r.value, step) && start <= r.value < stop && r.value <= x < r.value + step
  {
    if start >= stop || x < start then None
    else if x < start + step then Some(start)
    else BlockOf(x, start + step, stop, step)
  }

  lemma ReachesAtLeast(start: int, i: int, step: nat)
    requires step >= 1 && Reaches(start, i, step)
    decreases i - start
    ensures start <= i && (start < i ==> start + step <= i)
  {
    if start != i {
      ReachesAtLeast(start + step, i, step);
    }
  }

  /** Past a member of the range, the block of `x` can be found from that
      member on. */
  lemma BlockOfFrom(x: int, start: int, i: int, stop: int, step: nat)
    requires step >= 1 && Reaches(start, i, step) && i <= x
    decreases i - start
    ensures BlockOf(x, start, stop, step) == BlockOf(x, i, stop, step)
  {
    if start != i {
      ReachesAtLeast(start + step, i, step);
      BlockOfFrom(x, start + step, i, stop, step);
    }
  }

  /** Multiples of `step`. */
  predicate Multiple(n: int, step: nat)
    requires step >= 1
    decreases n
  {
    n == 0 || (n >= step && Multiple(n - step, step))
  }

  lemma {:induction false} MultipleOf(k: nat, step: nat)
    requires step >= 1
    ensures Multiple(k * step, step)
  {
    if k > 0 {
      MultipleOf(k - 1, step);
      assert k * step - step == (k - 1) * step;
    }
  }

  lemma {:induction false} ReachesMultiple(start: int, i: int, step: nat)
    requires step >= 1 && Reaches(start, i, step)
    decreases i - start
    ensures Multiple(i - start, step)
  {
    if start != i {
      ReachesMultiple(start + step, i, step);
      ReachesAtLeast(start + step, i, step);
    }
  }

  lemma {:induction false} MultipleGap(a: int, b: int, step: nat)
    requires step >= 1 && Multiple(a, step) && Multiple(b, step) && a < b
    decreases a
    ensures a + step <= b
  {
    if a != 0 {
      MultipleGap(a - step, b - step, step);
    }
  }

  /** Every block a scan visits lies inside the image when the image's side
      is a multiple of the block size and the offset is at most one block:
      the loop bound `max_size - (step - offset)` stops one block short of
      the edge. */
  lemma BlockInside(start: int, i: int, size: nat, step: nat)
    requires step >= 1 && 0 <= start <= step && size >= step
    requires Multiple(size, step) && Reaches(start, i, step)
    requires i < size - (step - start)
    ensures 0 <= i && i + step <= size
  {
    ReachesMultiple(start, i, step);
    ReachesAtLeast(start, i, step);
    assert Multiple(size - step, step);
    MultipleGap(i - start, size - step, step);
  }

  // ---------------------------------------------------------------------
  // What the half-pixel scan computes
  // ---------------------------------------------------------------------

  /** The half pixels counted along one row of blocks: `step * step` for
      every mixed block from `j` on. */
  ghost function RowRed(pixels: array2<Color>, i: int, j: int, stopJ: int, step: nat): nat
    reads pixels
    requires step >= 1 && 0 <= i < pixels.Length0 && 0 <= j && stopJ <= pixels.Length1
    decreases stopJ - j
  {
    if j >= stopJ then 0
    else (if MixedBlock(pixels, i, j, step) then step * step else 0) + RowRed(pixels, i, j + step, stopJ, step)
  }

  /** The half pixels counted over the rows of blocks from `i` on. */
  ghost function GridRed(pixels: array2<Color>, i: int, stopI: int, dj: int, stopJ: int, step: nat): nat
    reads pixels
    requires step >= 1 && 0 <= i && stopI <= pixels.Length0 && 0 <= dj && stopJ <= pixels.Length1
    decreases stopI - i
  {
    if i >= stopI then 0
    else RowRed(pixels, i, dj, stopJ, step) + GridRed(pixels, i + step, stopI, dj, stopJ, step)
  }

  /** The number of mixed blocks along one row of blocks. */
  ghost function RowRedBlocks(pixels: array2<Color>, i: int, j: int, stopJ: int, step: nat): nat
    reads pixels
    requires step >= 1 && 0 <= i < pixels.Length0 && 0 <= j && stopJ <= pixels.Length1
    decreases stopJ - j
  {
    if j >= stopJ then 0
    else (if MixedBlock(pixels, i, j, step) then 1 else 0) + RowRedBlocks(pixels, i, j + step, stopJ, step)
  }

  /** The number of mixed blocks in the scanned grid. */
  ghost function GridRedBlocks(pixels: array2<Color>, i: int, stopI: int, dj: int, stopJ: int, step: nat): nat
    reads pixels
    requires step >= 1 && 0 <= i && stopI <= pixels.Length0 && 0 <= dj && stopJ <= pixels.Length1
    decreases stopI - i
  {
    if i >= stopI then 0
    else RowRedBlocks(pixels, i, dj, stopJ, step) + GridRedBlocks(pixels, i + step, stopI, dj, stopJ, step)
  }

  lemma {:induction false} RowRedIsBlocks(pixels: array2<Color>, i: int, j: int, stopJ: int, step: nat)
    requires step >= 1 && 0 <= i < pixels.Length0 && 0 <= j && stopJ <= pixels.Length1
    decreases stopJ - j
    ensures RowRed(pixels, i, j, stopJ, step) == step * step * RowRedBlocks(pixels, i, j, stopJ, step)
  {
    if j < stopJ {
      RowRedIsBlocks(pixels, i, j + step, stopJ, step);
      Distribute(step * step, if MixedBlock(pixels, i, j, step) then 1 else 0, RowRedBlocks(pixels, i, j + step, stopJ, step));
    }
  }

  lemma Distribute(k: int, a: int, b: int)
    ensures k * (a + b) == k * a + k * b
  {
  }

  /** The half-pixel count is `step * step` times the number of mixed
      blocks. */
  lemma {:induction false} GridRedIsBlocks(pixels: array2<Color>, i: int, stopI: int, dj: int, stopJ: int, step: nat)
    requires step >= 1 && 0 <= i && stopI <= pixels.Length0 && 0 <= dj && stopJ <= pixels.Length1
    decreases stopI - i
    ensures GridRed(pixels, i, stopI, dj, stopJ, step) == step * step * GridRedBlocks(pixels, i, stopI, dj, stopJ, step)
  {
    if i < stopI {
      GridRedIsBlocks(pixels, i + step, stopI, dj, stopJ, step);
      RowRedIsBlocks(pixels, i, dj, stopJ, step);
      Distribute(step * step, RowRedBlocks(pixels, i, dj, stopJ, step), GridRedBlocks(pixels, i + step, stopI, dj, stopJ, step));
    }
  }

  /** The half-pixel highlight of position `(x, y)`: the colour of the
      scanned block that holds it, and the fresh image's (0, 0, 0, 0) where
      no scanned block does. */
  ghost function HalfPixelHighlight(pixels: array2<Color>, di: int, stopI: int, dj: int, stopJ: int, step: nat, x: int, y: int): Color
    reads pixels
    requires step >= 1 && 0 <= di && stopI <= pixels.Length0 && 0 <= dj && stopJ <= pixels.Length1
  {
    match BlockOf(x, di, stopI, step)
    case None => Clear
    case Some(i) =>
      match BlockOf(y, dj, stopJ, step)
      case None => Clear
      case Some(j) => BlockColor(pixels, i, j, step)
  }

  /** The semi-transparency highlight of one alpha value. */
  function TransparencyHighlight(alpha: int): Color {
    if IsHalfTransparent(alpha) then Pink
    else if !IsTransparent(alpha) then Black
    else White
  }

  /** Pink marks exactly the semi-transparent alphas, white the fully
      transparent ones and black the opaque ones. */
  lemma TransparencyHighlightSpec(alpha: int)
    ensures TransparencyHighlight(alpha) == Pink <==> IsHalfTransparent(alpha)
    ensures TransparencyHighlight(alpha) == White <==> IsTransparent(alpha)
    ensures TransparencyHighlight(alpha) == Black <==> alpha == 255
  {
  }
}
