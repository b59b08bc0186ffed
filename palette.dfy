/** The palette side of the sprite analysis: the colour entries the image
    library counts, the filtering of fully transparent entries, the pairing
    of colours that look alike and the ordering of those pairs. The two
    perceptual distances between colours come from a floating-point colour
    library and are a parameter here; the largest channel difference is
    computed exactly. */
module Palette {
  import opened Wrappers

  /** A pixel or palette colour as the image library reports it: a palette
      index for indexed images, otherwise a tuple of channel values. */
  datatype Color = Indexed(index: int) | Channels(values: seq<int>)

  /** One entry of `getcolors`: how often a colour occurs, and the colour. */
  datatype ColorCount = ColorCount(count: int, color: Color)

  /** The red, green and blue channels of a colour (`color[0:3]`). */
  type Rgb = seq<int>

  /** The distances between two colours: the two perceptual ones truncated
      to integers, then the largest channel difference. */
  datatype Delta = Delta(cie2000: int, cmc: int, maxDifference: int)

  /** The two perceptual distances of a pair of colours, as the colour
      library computes them. */
  type PerceptualDistance = (Rgb, Rgb) -> (int, int)

  const TransparencyException := "TransparencyException"
  const TypeError := "TypeError"

  const DeltaColorLimit := 10
  const DifferenceColorLimit := 32

  // ---------------------------------------------------------------------
  // Alpha and useless colours
  // ---------------------------------------------------------------------

  /** `get_alpha`: the fourth channel; a tuple of any other length raises
      the transparency exception, and an index has no length at all. */
  function GetAlpha(color: Color): (r: Result<int>)
    ensures r.Ok? <==> color.Channels? && |color.values| == 4
    ensures r.Ok? ==> r.value == color.values[3]
    ensures color.Channels? && |color.values| != 4 ==> r == Raised(TransparencyException)
  {
    match color
    case Indexed(_) => Raised(TypeError)
    case Channels(vs) => if |vs| != 4 then Raised(TransparencyException) else Ok(vs[3])
  }

  /** `is_useless_color`: an index is always useful; a tuple is useless when
      fully transparent. */
  function IsUselessColor(color: Color): (r: Result<bool>)
    ensures r.Ok? <==> Readable(color)
    ensures r.Ok? ==> (r.value <==> color.Channels? && color.values[3] == 0)
    ensures r.Raised? ==> r.exception == TransparencyException
  {
    if color.Indexed? then Ok(false)
    else
      match GetAlpha(color)
      case Raised(e) => Raised(e)
      case Ok(alpha) => Ok(alpha == 0)
  }

  /** The colours the filter can judge: indices and four-channel tuples. */
  predicate Readable(color: Color) {
    color.Indexed? || |color.values| == 4
  }

  /** An entry the filter keeps. */
  predicate Useful(e: ColorCount)
    requires Readable(e.color)
  {
    e.color.Indexed? || e.color.values[3] != 0
  }

  /** What `remove_useless_colors` computes on the first `|entries|`
      entries: the useful ones in order, or the exception the first
      unreadable colour raises. */
  function UsefulColors(entries: seq<ColorCount>): Result<seq<ColorCount>> {
    if |entries| == 0 then Ok([])
    else
      match UsefulColors(entries[..|entries| - 1])
      case Raised(e) => Raised(e)
      case Ok(kept) =>
        match IsUselessColor(entries[|entries| - 1].color)
        case Raised(e) => Raised(e)
        case Ok(useless) => if useless then Ok(kept) else Ok(kept + [entries[|entries| - 1]])
  }

  /** `remove_useless_colors`: copies the entries whose colour is not fully
      transparent, in order. */
  method RemoveUselessColors(oldColors: seq<ColorCount>) returns (r: Result<seq<ColorCount>>)
    ensures r == UsefulColors(oldColors)
  {
    var newColors := [];
    var k := 0;
    while k < |oldColors|
      invariant 0 <= k <= |oldColors|
      invariant UsefulColors(oldColors[..k]) == Ok(newColors)
    {
      assert oldColors[..k + 1][..k] == oldColors[..k];
      var useless := IsUselessColor(oldColors[k].color);
      if useless.Raised? {
        UsefulColorsSpec(oldColors);
        return Raised(useless.exception);
      }
      if !useless.value {
        newColors := newColors + [oldColors[k]];
      }
      k := k + 1;
    }
    assert oldColors[..k] == oldColors;
    return Ok(newColors);
  }

  /** The filter raises exactly when some colour is a tuple of other than
      four channels; otherwise it keeps exactly the useful entries, in their
      original order, and drops the rest. */
  lemma {:induction false} UsefulColorsSpec(entries: seq<ColorCount>)
    ensures UsefulColors(entries).Ok? <==> forall k :: 0 <= k < |entries| ==> Readable(entries[k].color)
    ensures UsefulColors(entries).Raised? ==> UsefulColors(entries).exception == TransparencyException
    ensures UsefulColors(entries).Ok? ==>
      var kept := UsefulColors(entries).value;
      (forall e :: e in kept <==> e in entries && Useful(e))
      && IsSubsequence(kept, entries)
  {
    if |entries| > 0 {
      var init := entries[..|entries| - 1];
      var last := entries[|entries| - 1];
      UsefulColorsSpec(init);
      assert entries == init + [last];
      if UsefulColors(entries).Ok? {
        var kept := UsefulColors(init).value;
        SubsequenceExtend(kept, init, last);
      }
    }
  }

  /** `a` is `b` with some entries dropped, the rest in the same order. */
  ghost predicate IsSubsequence<T>(a: seq<T>, b: seq<T>) {
    exists f: seq<nat> :: |f| == |a|
      && (forall k :: 0 <= k < |f| ==> f[k] < |b| && a[k] == b[f[k]])
      && (forall k, l :: 0 <= k < l < |f| ==> f[k] < f[l])
  }

  lemma SubsequenceExtend<T>(a: seq<T>, b: seq<T>, x: T)
    requires IsSubsequence(a, b)
    ensures IsSubsequence(a, b + [x]) && IsSubsequence(a + [x], b + [x])
  {
    var f: seq<nat> :| |f| == |a|
      && (forall k :: 0 <= k < |f| ==> f[k] < |b| && a[k] == b[f[k]])
      && (forall k, l :: 0 <= k < l < |f| ==> f[k] < f[l]);
    assert forall k :: 0 <= k < |f| ==> (b + [x])[f[k]] == b[f[k]];
    var g := f + [|b|];
    assert forall k :: 0 <= k < |g| ==> g[k] < |b + [x]| && (a + [x])[k] == (b + [x])[g[k]];
  }

  // ---------------------------------------------------------------------
  // Colour lists and distances
  // ---------------------------------------------------------------------

  /** `get_rgb_color_list`: the first three channels of every entry's
      colour, in order. Slicing a palette index fails, so the entries are
      tuples. */
  method GetRgbColorList(colorDataList: seq<ColorCount>) returns (rgbColorList: seq<Rgb>)
    requires forall k :: 0 <= k < |colorDataList| ==> colorDataList[k].color.Channels?
    ensures |rgbColorList| == |colorDataList|
    ensures forall k :: 0 <= k < |colorDataList| ==> rgbColorList[k] == RgbOf(colorDataList[k].color)
  {
    rgbColorList := [];
    var k := 0;
    while k < |colorDataList|
      invariant 0 <= k <= |colorDataList|
      invariant |rgbColorList| == k
      invariant forall m :: 0 <= m < k ==> rgbColorList[m] == RgbOf(colorDataList[m].color)
    {
      rgbColorList := rgbColorList + [RgbOf(colorDataList[k].color)];
      k := k + 1;
    }
  }

  /** `color[0:3]` of a tuple. */
  function RgbOf(color: Color): (r: Rgb)
    requires color.Channels?
    ensures |r| <= |color.values| && (|color.values| >= 3 ==> |r| == 3)
    ensures forall k :: 0 <= k < |r| ==> r[k] == color.values[k]
  {
    if |color.values| <= 3 then color.values else color.values[..3]
  }

  function Abs(x: int): nat {
    if x < 0 then -x else x
  }

  /** `get_max_difference`: the largest of the three channel differences. */
  function MaxDifference(a: Rgb, b: Rgb): int
    requires |a| >= 3 && |b| >= 3
  {
    var red := Abs(a[0] - b[0]);
    var green := Abs(a[1] - b[1]);
    var blue := Abs(a[2] - b[2]);
    if red >= green && red >= blue then red else if green >= blue then green else blue
  }

  /** The largest channel difference bounds every channel difference and is
      one of them; it does not depend on the order of the colours; it is 0
      exactly for equal channels; for 8-bit channels it is at most 255. */
  lemma MaxDifferenceSpec(a: Rgb, b: Rgb)
    requires |a| >= 3 && |b| >= 3
    ensures forall c :: 0 <= c < 3 ==> Abs(a[c] - b[c]) <= MaxDifference(a, b)
    ensures exists c :: 0 <= c < 3 && Abs(a[c] - b[c]) == MaxDifference(a, b)
    ensures MaxDifference(a, b) == MaxDifference(b, a)
    ensures MaxDifference(a, b) == 0 <==> a[..3] == b[..3]
    ensures (forall c :: 0 <= c < 3 ==> 0 <= a[c] <= 255 && 0 <= b[c] <= 255) ==> MaxDifference(a, b) <= 255
  {
    if a[..3] == b[..3] {
      assert a[0] == a[..3][0] && a[1] == a[..3][1] && a[2] == a[..3][2];
      assert b[0] == b[..3][0] && b[1] == b[..3][1] && b[2] == b[..3][2];
    }
    if MaxDifference(a, b) == 0 {
      assert a[..3] == [a[0], a[1], a[2]] && b[..3] == [b[0], b[1], b[2]];
    }
  }

  /** `get_color_delta`: the perceptual distances and the largest channel
      difference. */
  function ColorDelta(perceptual: PerceptualDistance, a: Rgb, b: Rgb): (d: Delta)
    requires |a| >= 3 && |b| >= 3
    ensures d.maxDifference == MaxDifference(a, b)
  {
    var (cie2000, cmc) := perceptual(a, b);
    Delta(cie2000, cmc, MaxDifference(a, b))
  }

  /** `is_similar`: both perceptual distances at most 10 and no channel
      farther apart than 32. */
  predicate IsSimilar(d: Delta) {
    if d.cie2000 > DeltaColorLimit then false
    else if d.cmc > DeltaColorLimit then false
    else if d.maxDifference > DifferenceColorLimit then false
    else true
  }

  /** Similar colours are at most 32 apart in every channel. */
  lemma SimilarChannelsClose(perceptual: PerceptualDistance, a: Rgb, b: Rgb)
    requires |a| >= 3 && |b| >= 3
    requires IsSimilar(ColorDelta(perceptual, a, b))
    ensures forall c :: 0 <= c < 3 ==> -32 <= a[c] - b[c] <= 32
  {
    MaxDifferenceSpec(a, b);
  }

  // ---------------------------------------------------------------------
  // The dictionary of similar pairs
  // ---------------------------------------------------------------------

  /** One item of the pair dictionary: an unordered pair of colours (a
      frozen set) and its distances. Items keep insertion order. */
  datatype Entry = Entry(key: set<Rgb>, delta: Delta)

  /** Index of `key` in the dictionary, if present. */
  function FindKey(d: seq<Entry>, key: set<Rgb>): (r: Option<nat>)
    ensures r.Some? ==> r.value < |d| && d[r.value].key == key
    ensures r.None? ==> forall k :: 0 <= k < |d| ==> d[k].key != key
  {
    if |d| == 0 then None
    else if d[|d| - 1].key == key then Some(|d| - 1)
    else FindKey(d[..|d| - 1], key)
  }

  /** `d[key] = delta`: an existing key keeps its place and takes the new
      value; a new key goes at the end. */
  function Put(d: seq<Entry>, key: set<Rgb>, delta: Delta): (r: seq<Entry>)
    ensures FindKey(d, key).Some? ==> |r| == |d| && r == d[FindKey(d, key).value := Entry(key, delta)]
    ensures FindKey(d, key).None? ==> r == d + [Entry(key, delta)]
  {
    match FindKey(d, key)
    case Some(i) => d[i := Entry(key, delta)]
    case None => d + [Entry(key, delta)]
  }

  /** The inner loop's effect: colour `a` against the first `n` colours. */
  function PairRow(perceptual: PerceptualDistance, list: seq<Rgb>, a: Rgb, d: seq<Entry>, n: nat): seq<Entry>
    requires n <= |list|
    requires |a| >= 3 && forall k :: 0 <= k < |list| ==> |list[k]| >= 3
  {
    if n == 0 then d
    else
      var before := PairRow(perceptual, list, a, d, n - 1);
      var b := list[n - 1];
      if a == b then before
      else if IsSimilar(ColorDelta(perceptual, a, b)) then Put(before, {a, b}, ColorDelta(perceptual, a, b))
      else before
  }

  /** The outer loop's effect after the first `n` colours. */
  function PairGrid(perceptual: PerceptualDistance, list: seq<Rgb>, n: nat): seq<Entry>
    requires n <= |list|
    requires forall k :: 0 <= k < |list| ==> |list[k]| >= 3
  {
    if n == 0 then []
    else PairRow(perceptual, list, list[n - 1], PairGrid(perceptual, list, n - 1), |list|)
  }

  /** `get_similar_color_dict`: every ordered pair of different colours
      whose distances pass `is_similar` stores its distances under the
      unordered pair; a later pair of the same colours overwrites the
      value. */
  method GetSimilarColorDict(perceptual: PerceptualDistance, rgbColorList: seq<Rgb>) returns (colorDict: seq<Entry>)
    requires forall k :: 0 <= k < |rgbColorList| ==> |rgbColorList[k]| >= 3
    ensures colorDict == PairGrid(perceptual, rgbColorList, |rgbColorList|)
  {
    colorDict := [];
    var i := 0;
    while i < |rgbColorList|
      invariant 0 <= i <= |rgbColorList|
      invariant colorDict == PairGrid(perceptual, rgbColorList, i)
    {
      var colorA := rgbColorList[i];
      ghost var start := colorDict;
      var j := 0;
      while j < |rgbColorList|
        invariant 0 <= j <= |rgbColorList|
        invariant colorDict == PairRow(perceptual, rgbColorList, colorA, start, j)
      {
        var colorB := rgbColorList[j];
        if colorA != colorB {
          var colorDelta := ColorDelta(perceptual, colorA, colorB);
          if IsSimilar(colorDelta) {
            colorDict := Put(colorDict, {colorA, colorB}, colorDelta);
          }
        }
        j := j + 1;
      }
      i := i + 1;
    }
  }

  /** Item `e` is the pair of colours `i` and `j` of the list: two different
      colours, with the distances measured from `i` to `j`. */
  predicate ItemOf(perceptual: PerceptualDistance, list: seq<Rgb>, e: Entry, i: int, j: int)
    requires forall k :: 0 <= k < |list| ==> |list[k]| >= 3
  {
    0 <= i < |list| && 0 <= j < |list| && list[i] != list[j]
    && e.key == {list[i], list[j]} && e.delta == ColorDelta(perceptual, list[i], list[j])
  }

  /** Item `e` pairs two different colours of the list with their distances
      in one order. */
  ghost predicate PairOfList(perceptual: PerceptualDistance, list: seq<Rgb>, e: Entry)
    requires forall k :: 0 <= k < |list| ==> |list[k]| >= 3
  {
    exists i, j :: ItemOf(perceptual, list, e, i, j)
  }

  /** What every stored item satisfies: it is a pair of two different
      colours of the list with their distances in one order, those distances
      pass `is_similar`, and no key repeats. */
  ghost predicate PairsValid(perceptual: PerceptualDistance, list: seq<Rgb>, d: seq<Entry>)
    requires forall k :: 0 <= k < |list| ==> |list[k]| >= 3
  {
    (forall k :: 0 <= k < |d| ==> PairOfList(perceptual, list, d[k]) && IsSimilar(d[k].delta))
    && (forall k, l :: 0 <= k < l < |d| ==> d[k].key != d[l].key)
  }

  lemma PutValid(perceptual: PerceptualDistance, list: seq<Rgb>, d: seq<Entry>, i: nat, j: nat)
    requires forall k :: 0 <= k < |list| ==> |list[k]| >= 3
    requires i < |list| && j < |list| && list[i] != list[j]
    requires PairsValid(perceptual, list, d)
    requires IsSimilar(ColorDelta(perceptual, list[i], list[j]))
    ensures PairsValid(perceptual, list, Put(d, {list[i], list[j]}, ColorDelta(perceptual, list[i], list[j])))
  {
    var delta := ColorDelta(perceptual, list[i], list[j]);
    var r := Put(d, {list[i], list[j]}, delta);
    forall k | 0 <= k < |r| ensures PairOfList(perceptual, list, r[k]) {
      if k < |d| && r[k] == d[k] {
        var x, y :| ItemOf(perceptual, list, d[k], x, y);
        assert ItemOf(perceptual, list, r[k], x, y);
      } else {
        assert ItemOf(perceptual, list, r[k], i, j);
      }
    }
  }

  lemma {:induction false} PairRowValid(perceptual: PerceptualDistance, list: seq<Rgb>, i: nat, d: seq<Entry>, n: nat)
    requires n <= |list| && i < |list|
    requires forall k :: 0 <= k < |list| ==> |list[k]| >= 3
    requires PairsValid(perceptual, list, d)
    ensures PairsValid(perceptual, list, PairRow(perceptual, list, list[i], d, n))
  {
    if n > 0 {
      PairRowValid(perceptual, list, i, d, n - 1);
      var b := list[n - 1];
      if list[i] != b && IsSimilar(ColorDelta(perceptual, list[i], b)) {
        PutValid(perceptual, list, PairRow(perceptual, list, list[i], d, n - 1), i, n - 1);
      }
    }
  }

  /** The dictionary never pairs a colour with itself, holds each unordered
      pair at most once, stores under a key the distances of its two colours
      (in one of the two orders), and every stored distance has both
      perceptual values at most 10 and a channel difference at most 32. */
  lemma {:induction false} PairGridValid(perceptual: PerceptualDistance, list: seq<Rgb>, n: nat)
    requires n <= |list|
    requires forall k :: 0 <= k < |list| ==> |list[k]| >= 3
    ensures PairsValid(perceptual, list, PairGrid(perceptual, list, n))
    ensures forall k :: 0 <= k < |PairGrid(perceptual, list, n)| ==>
      |PairGrid(perceptual, list, n)[k].key| == 2
      && PairGrid(perceptual, list, n)[k].delta.cie2000 <= 10
      && PairGrid(perceptual, list, n)[k].delta.cmc <= 10
      && PairGrid(perceptual, list, n)[k].delta.maxDifference <= 32
  {
    if n > 0 {
      PairGridValid(perceptual, list, n - 1);
      PairRowValid(perceptual, list, n - 1, PairGrid(perceptual, list, n - 1), |list|);
    }
    var d := PairGrid(perceptual, list, n);
    forall k | 0 <= k < |d| ensures |d[k].key| == 2 {
      var x, y :| ItemOf(perceptual, list, d[k], x, y);
      assert {list[x], list[y]} == {list[x]} + {list[y]};
    }
  }

  /** The item stored under the key of two colours holds their distances,
      in one order or the other, so its channel difference is theirs. */
  lemma StoredDelta(perceptual: PerceptualDistance, list: seq<Rgb>, k: nat, a: Rgb, b: Rgb)
    requires forall m :: 0 <= m < |list| ==> |list[m]| >= 3
    requires k < |PairGrid(perceptual, list, |list|)|
    requires PairGrid(perceptual, list, |list|)[k].key == {a, b}
    ensures a != b && a in list && b in list
    ensures |a| >= 3 && |b| >= 3
    ensures PairGrid(perceptual, list, |list|)[k].delta == ColorDelta(perceptual, a, b)
      || PairGrid(perceptual, list, |list|)[k].delta == ColorDelta(perceptual, b, a)
    ensures PairGrid(perceptual, list, |list|)[k].delta.maxDifference == MaxDifference(a, b)
  {
    var d := PairGrid(perceptual, list, |list|);
    PairGridValid(perceptual, list, |list|);
    var x, y :| ItemOf(perceptual, list, d[k], x, y);
    assert a in {list[x], list[y]} && b in {list[x], list[y]};
    assert list[x] in {a, b} && list[y] in {a, b};
    MaxDifferenceSpec(a, b);
  }

  // The other direction: every similar pair of the list is stored.

  lemma PutKeeps(d: seq<Entry>, key: set<Rgb>, delta: Delta, k: nat) returns (k': nat)
    requires k < |d|
    ensures k' < |Put(d, key, delta)| && Put(d, key, delta)[k'].key == d[k].key
  {
    k' := k;
  }

  lemma PutStores(d: seq<Entry>, key: set<Rgb>, delta: Delta) returns (k': nat)
    ensures k' < |Put(d, key, delta)| && Put(d, key, delta)[k'].key == key
  {
    match FindKey(d, key)
    case Some(i) => k' := i;
    case None => k' := |d|;
  }

  lemma {:induction false} PairRowKeeps(perceptual: PerceptualDistance, list: seq<Rgb>, a: Rgb, d: seq<Entry>, n: nat, k: nat)
    returns (k': nat)
    requires n <= |list|
    requires |a| >= 3 && forall m :: 0 <= m < |list| ==> |list[m]| >= 3
    requires k < |d|
    ensures k' < |PairRow(perceptual, list, a, d, n)| && PairRow(perceptual, list, a, d, n)[k'].key == d[k].key
  {
    if n == 0 {
      k' := k;
    } else {
      var before := PairRow(perceptual, list, a, d, n - 1);
      var m := PairRowKeeps(perceptual, list, a, d, n - 1, k);
      var b := list[n - 1];
      if a != b && IsSimilar(ColorDelta(perceptual, a, b)) {
        k' := PutKeeps(before, {a, b}, ColorDelta(perceptual, a, b), m);
      } else {
        k' := m;
      }
    }
  }

  lemma {:induction false} PairRowStores(perceptual: PerceptualDistance, list: seq<Rgb>, a: Rgb, d: seq<Entry>, n: nat, j: nat)
    returns (k': nat)
    requires n <= |list| && j < n
    requires |a| >= 3 && forall m :: 0 <= m < |list| ==> |list[m]| >= 3
    requires a != list[j] && IsSimilar(ColorDelta(perceptual, a, list[j]))
    ensures k' < |PairRow(perceptual, list, a, d, n)| && PairRow(perceptual, list, a, d, n)[k'].key == {a, list[j]}
  {
    var before := PairRow(perceptual, list, a, d, n - 1);
    var b := list[n - 1];
    if j == n - 1 {
      k' := PutStores(before, {a, b}, ColorDelta(perceptual, a, b));
    } else {
      var m := PairRowStores(perceptual, list, a, d, n - 1, j);
      if a != b && IsSimilar(ColorDelta(perceptual, a, b)) {
        k' := PutKeeps(before, {a, b}, ColorDelta(perceptual, a, b), m);
      } else {
        k' := m;
      }
    }
  }

  /** Every pair of different colours of the list whose distances, in the
      order the loops meet them, pass `is_similar` is stored under its
      unordered key. */
  lemma {:induction false} PairGridComplete(perceptual: PerceptualDistance, list: seq<Rgb>, n: nat, i: nat, j: nat)
    returns (k: nat)
    requires n <= |list| && i < n && j < |list|
    requires forall m :: 0 <= m < |list| ==> |list[m]| >= 3
    requires list[i] != list[j] && IsSimilar(ColorDelta(perceptual, list[i], list[j]))
    ensures k < |PairGrid(perceptual, list, n)| && PairGrid(perceptual, list, n)[k].key == {list[i], list[j]}
  {
    var grid := PairGrid(perceptual, list, n - 1);
    if i == n - 1 {
      k := PairRowStores(perceptual, list, list[i], grid, |list|, j);
    } else {
      var m := PairGridComplete(perceptual, list, n - 1, i, j);
      k := PairRowKeeps(perceptual, list, list[n - 1], grid, |list|, m);
    }
  }

  /** The unordered pairs of different colours of the list that pass
      `is_similar` in at least one order. */
  ghost function SimilarKeys(perceptual: PerceptualDistance, list: seq<Rgb>): set<set<Rgb>>
    requires forall m :: 0 <= m < |list| ==> |list[m]| >= 3
  {
    set i, j | 0 <= i < |list| && 0 <= j < |list| && list[i] != list[j]
      && IsSimilar(ColorDelta(perceptual, list[i], list[j])) :: {list[i], list[j]}
  }

  /** The keys of a dictionary. */
  ghost function KeysOf(d: seq<Entry>): set<set<Rgb>> {
    set k | 0 <= k < |d| :: d[k].key
  }

  lemma {:induction false} KeysOfDistinct(d: seq<Entry>)
    requires forall k, l :: 0 <= k < l < |d| ==> d[k].key != d[l].key
    ensures |KeysOf(d)| == |d|
  {
    if |d| > 0 {
      var init := d[..|d| - 1];
      KeysOfDistinct(init);
      assert KeysOf(d) == KeysOf(init) + {d[|d| - 1].key};
    }
  }

  /** `len(similar_color_dict)`, the similarity amount, is the number of
      unordered pairs of different colours that pass `is_similar`: the keys
      are exactly those pairs and no key repeats. */
  lemma SimilarityAmountCounts(perceptual: PerceptualDistance, list: seq<Rgb>)
    requires forall m :: 0 <= m < |list| ==> |list[m]| >= 3
    ensures KeysOf(PairGrid(perceptual, list, |list|)) == SimilarKeys(perceptual, list)
    ensures |PairGrid(perceptual, list, |list|)| == |SimilarKeys(perceptual, list)|
  {
    var d := PairGrid(perceptual, list, |list|);
    PairGridValid(perceptual, list, |list|);
    forall key | key in KeysOf(d) ensures key in SimilarKeys(perceptual, list) {
      var k :| 0 <= k < |d| && d[k].key == key;
      var x, y :| ItemOf(perceptual, list, d[k], x, y);
    }
    forall key | key in SimilarKeys(perceptual, list) ensures key in KeysOf(d) {
      var i, j :| 0 <= i < |list| && 0 <= j < |list| && list[i] != list[j]
        && IsSimilar(ColorDelta(perceptual, list[i], list[j])) && key == {list[i], list[j]};
      var k := PairGridComplete(perceptual, list, |list|, i, j);
    }
    KeysOfDistinct(d);
  }

  // ---------------------------------------------------------------------
  // Ordering by channel difference
  // ---------------------------------------------------------------------

  /** Inserts `e` after every item whose channel difference is not larger,
      as a stable sort does. */
  function Insert(e: Entry, sorted: seq<Entry>): (r: seq<Entry>)
    ensures multiset(r) == multiset(sorted) + multiset{e}
  {
    if |sorted| == 0 then [e]
    else if e.delta.maxDifference < sorted[|sorted| - 1].delta.maxDifference then
      var r := Insert(e, sorted[..|sorted| - 1]) + [sorted[|sorted| - 1]];
      assert sorted == sorted[..|sorted| - 1] + [sorted[|sorted| - 1]];
      r
    else sorted + [e]
  }

  /** `sort_color_dict`: the items ordered by their largest channel
      difference, equal ones in their original order. */
  function SortColorDict(d: seq<Entry>): (r: seq<Entry>)
  {
    if |d| == 0 then []
    else Insert(d[|d| - 1], SortColorDict(d[..|d| - 1]))
  }

  predicate SortedByDifference(d: seq<Entry>) {
    forall k, l :: 0 <= k < l < |d| ==> d[k].delta.maxDifference <= d[l].delta.maxDifference
  }

  lemma {:induction false} InsertSorted(e: Entry, sorted: seq<Entry>)
    requires SortedByDifference(sorted)
    ensures SortedByDifference(Insert(e, sorted))
    ensures |Insert(e, sorted)| == |sorted| + 1
    ensures forall x :: x in Insert(e, sorted) ==> x == e || x in sorted
  {
    if |sorted| > 0 && e.delta.maxDifference < sorted[|sorted| - 1].delta.maxDifference {
      var init := sorted[..|sorted| - 1];
      var last := sorted[|sorted| - 1];
      InsertSorted(e, init);
      var r := Insert(e, init);
      forall x | x in r ensures x.delta.maxDifference <= last.delta.maxDifference {
        if x != e {
          var k :| 0 <= k < |init| && init[k] == x;
        }
      }
      assert Insert(e, sorted) == r + [last];
    }
  }

  /** The items whose channel difference is `v`, in their order. */
  function WithDifference(d: seq<Entry>, v: int): seq<Entry> {
    if |d| == 0 then []
    else
      var last := d[|d| - 1];
      WithDifference(d[..|d| - 1], v) + (if last.delta.maxDifference == v then [last] else [])
  }

  lemma WithDifferenceSnoc(d: seq<Entry>, e: Entry, v: int)
    ensures WithDifference(d + [e], v)
      == WithDifference(d, v) + (if e.delta.maxDifference == v then [e] else [])
  {
    assert (d + [e])[..|d|] == d;
  }

  /** Inserting places `e` after every item of its own channel difference. */
  lemma {:induction false} InsertStable(e: Entry, sorted: seq<Entry>, v: int)
    ensures WithDifference(Insert(e, sorted), v)
      == WithDifference(sorted, v) + (if e.delta.maxDifference == v then [e] else [])
  {
    if |sorted| == 0 {
      WithDifferenceSnoc([], e, v);
    } else if e.delta.maxDifference < sorted[|sorted| - 1].delta.maxDifference {
      var init := sorted[..|sorted| - 1];
      var last := sorted[|sorted| - 1];
      InsertStable(e, init, v);
      WithDifferenceSnoc(Insert(e, init), last, v);
    } else {
      WithDifferenceSnoc(sorted, e, v);
    }
  }

  /** Sorting keeps exactly the same items (a permutation), orders them
      non-decreasingly by channel difference, and is stable: the items of
      one channel difference keep their original order. */
  lemma {:induction false} SortColorDictSpec(d: seq<Entry>)
    ensures multiset(SortColorDict(d)) == multiset(d)
    ensures SortedByDifference(SortColorDict(d))
    ensures forall v :: WithDifference(SortColorDict(d), v) == WithDifference(d, v)
  {
    if |d| > 0 {
      var init := d[..|d| - 1];
      SortColorDictSpec(init);
      InsertSorted(d[|d| - 1], SortColorDict(init));
      assert d == init + [d[|d| - 1]];
      forall v ensures WithDifference(SortColorDict(d), v) == WithDifference(d, v) {
        InsertStable(d[|d| - 1], SortColorDict(init), v);
      }
    }
  }
}
