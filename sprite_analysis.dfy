/** The sprite checks: a fixed sequence of stages that inspect one image
    (its format, its size, its palette, its semi-transparent pixels and its
    pixel grid) and write findings, a verdict and an AI-suspicion score into
    the analysis record.

    The decoded image comes in as data: its pixels as they were read before
    any conversion, its format, its "Software" text and the (count, colour)
    entries of its RGBA conversion, or nothing when it has more than 256
    colours. The two perceptual colour distances are a function parameter. */
module SpriteAnalysis {
  import opened Wrappers
  import opened Text
  import opened Enums
  import I = Issues
  import opened Palette
  import opened PixelScans
  import opened AnalysisRecord
  import LegacyUtils

  const MaxSize := 288
  const EggSize := 160
  const AllColorLimit := 256
  const NormalStep := 3
  const EggStep := 2
  const AsepriteRatio := 2

  // ---------------------------------------------------------------------
  // Thresholds
  // ---------------------------------------------------------------------

  /** The colour and similarity limits of one analysis. */
  datatype Limits = Limits(refusedColor: int, controvColor: int, refusedSim: int, controvSim: int)

  /** The limits for a custom base (or the assets gallery), and for any other
      sprite. */
  function LimitsFor(customBase: bool): Limits {
    if customBase then Limits(32, 20, 15, 6) else Limits(64, 32, 20, 10)
  }

  /** Every limit for custom bases is stricter than the ordinary one, and in
      both sets the controversial limit is below the refused one. */
  lemma LimitsForSpec(customBase: bool)
    ensures LimitsFor(customBase).controvColor < LimitsFor(customBase).refusedColor
    ensures LimitsFor(customBase).controvSim < LimitsFor(customBase).refusedSim
    ensures LimitsFor(true).refusedColor < LimitsFor(false).refusedColor
    ensures LimitsFor(true).controvColor < LimitsFor(false).controvColor
    ensures LimitsFor(true).refusedSim < LimitsFor(false).refusedSim
    ensures LimitsFor(true).controvSim < LimitsFor(false).controvSim
  {
  }

  // ---------------------------------------------------------------------
  // What each stage decides
  // ---------------------------------------------------------------------

  /** The verdict after a stage and the findings the stage adds. */
  datatype Verdict = Verdict(severity: Severity, findings: seq<I.Issue>)

  /** `handle_sprite_format`: anything but a PNG is refused. */
  function FormatVerdict(format: Option<string>, sev: Severity): Verdict {
    if format != Some("PNG") then Verdict(Refused, [I.NotPng(format)]) else Verdict(sev, [])
  }

  /** `handle_sprite_size`: any size but the expected square is refused. */
  function SizeVerdict(width: int, height: int, size: int, sev: Severity): Verdict {
    if width == size && height == size then Verdict(sev, [])
    else Verdict(Refused, [I.InvalidSize(width, height)])
  }

  /** The suspicion change of `handle_sprite_size`. */
  function SizeSuspicion(width: int, height: int, size: int): int {
    if width == size && height == size then -4
    else if width == 1024 && height == 1024 then 8
    else if width == 96 && height == 96 then -2
    else 0
  }

  /** `handle_color_limit`: too many colours refuse; somewhat too many add a
      finding and make the verdict controversial unless it is refused. */
  function ColorLimitVerdict(useful: int, l: Limits, sev: Severity): Verdict {
    if useful > l.refusedColor then Verdict(Refused, [I.ColorExcessRefused(l.refusedColor)])
    else if useful > l.controvColor then
      Verdict(if sev != Refused then Controversial else sev, [I.ColorExcessControversial(l.controvColor)])
    else Verdict(sev, [])
  }

  /** `handle_color_similarity`: the count is always reported; too many
      similar pairs refuse, somewhat too many make an unrefused verdict
      controversial. */
  function SimilarityVerdict(amount: int, l: Limits, sev: Severity): Verdict {
    if amount > l.refusedSim then
      Verdict(Refused, [I.SimilarityAmount(amount), I.SimilarityExcessRefused(l.refusedSim)])
    else if amount > l.controvSim && sev != Refused then
      Verdict(Controversial, [I.SimilarityAmount(amount), I.SimilarityExcessControversial(l.controvSim)])
    else Verdict(sev, [I.SimilarityAmount(amount)])
  }

  /** `handle_aseprite`: far more fully transparent entries than useful ones
      hint at the Aseprite editor; the ratio is reported truncated. */
  function AsepriteFindings(useful: int, useless: int): seq<I.Issue> {
    if useful != 0 && useless > AsepriteRatio * useful then [I.AsepriteUser(useless / useful)] else []
  }

  /** `handle_graphics_gale`. */
  function GaleFindings(software: string): seq<I.Issue> {
    if Contains(software, "GLDPNG") then [I.GraphicsGaleUser] else []
  }

  /** `handle_sprite_transparency` after the scan: nothing when the scan
      raised or found no semi-transparent pixel; a note when the message says
      the transparency is intended; otherwise a finding that makes an
      unrefused verdict controversial. The flag says whether the highlight
      image is kept. */
  function TransparencyVerdict(amount: Result<nat>, intentional: bool, sev: Severity): (Verdict, bool) {
    if amount.Raised? || amount.value == 0 then (Verdict(sev, []), false)
    else if intentional then (Verdict(sev, [I.IntentionalTransparency]), false)
    else (Verdict(if sev != Refused then Controversial else sev, [I.SemiTransparency]), true)
  }

  /** `handle_sprite_half_pixels` after the scans: a clean strict scan adds
      nothing; otherwise half pixels on the shifted grid as well refuse, and
      a clean shifted grid only reports a misplaced grid. */
  function HalfPixelVerdict(strict: nat, lax: nat, sev: Severity): (Verdict, bool) {
    if strict == 0 then (Verdict(sev, []), false)
    else if lax > 0 then (Verdict(Refused, [I.HalfPixels]), true)
    else (Verdict(sev, [I.MisplacedGrid]), false)
  }

  /** No stage lowers the verdict: each keeps it, sets it to refused, or sets
      it to controversial only when it was not refused. */
  lemma VerdictsRaise(sev: Severity, format: Option<string>, width: int, height: int, size: int,
                      useful: int, amount: int, l: Limits, scan: Result<nat>, intentional: bool,
                      strict: nat, lax: nat)
    ensures Enums.Raised(sev, FormatVerdict(format, sev).severity)
    ensures Enums.Raised(sev, SizeVerdict(width, height, size, sev).severity)
    ensures Enums.Raised(sev, ColorLimitVerdict(useful, l, sev).severity)
    ensures Enums.Raised(sev, SimilarityVerdict(amount, l, sev).severity)
    ensures Enums.Raised(sev, TransparencyVerdict(scan, intentional, sev).0.severity)
    ensures Enums.Raised(sev, HalfPixelVerdict(strict, lax, sev).0.severity)
  {
  }

  /** A refused verdict gets the matching finding, and a controversial one
      out of an accepted verdict gets its finding too. */
  lemma VerdictsExplainRefusal(sev: Severity, useful: int, amount: int, l: Limits, strict: nat, lax: nat)
    requires sev != Refused
    ensures ColorLimitVerdict(useful, l, sev).severity == Refused
      <==> useful > l.refusedColor
    ensures ColorLimitVerdict(useful, l, sev).severity == Refused
      ==> ColorLimitVerdict(useful, l, sev).findings == [I.ColorExcessRefused(l.refusedColor)]
    ensures SimilarityVerdict(amount, l, sev).severity == Refused
      <==> amount > l.refusedSim
    ensures HalfPixelVerdict(strict, lax, sev).0.severity == Refused
      <==> strict > 0 && lax > 0
    ensures HalfPixelVerdict(strict, lax, sev).1 <==> HalfPixelVerdict(strict, lax, sev).0.severity == Refused
  {
  }

  /** The similarity verdict always reports the amount first, and only
      that finding is of the amount's kind. */
  lemma SimilarityVerdictFirst(amount: int, l: Limits, sev: Severity)
    ensures var v := SimilarityVerdict(amount, l, sev);
      1 <= |v.findings| && v.findings[0] == I.SimilarityAmount(amount)
      && I.HasKind(v.findings, I.KSimilarityAmount)
  {
    var v := SimilarityVerdict(amount, l, sev);
    assert I.KindOf(v.findings[0]) == I.KSimilarityAmount;
  }

  /** The Aseprite finding appears exactly when the useless entries are more
      than twice the useful ones, and then its ratio is at least 2. */
  lemma AsepriteFindingsSpec(useful: nat, useless: nat)
    ensures |AsepriteFindings(useful, useless)| <= 1
    ensures AsepriteFindings(useful, useless) != [] <==> useful > 0 && useless > 2 * useful
    ensures AsepriteFindings(useful, useless) != [] ==>
      AsepriteFindings(useful, useless)[0].AsepriteUser? && AsepriteFindings(useful, useless)[0].ratio >= 2
  {
    if useful > 0 && useless > 2 * useful {
      assert useless / useful >= 2 by {
        DivAtLeast(useless, useful, 2);
      }
    }
  }

  lemma DivAtLeast(a: nat, b: nat, k: nat)
    requires b > 0 && a >= k * b
    ensures a / b >= k
  {
    if a / b < k {
      MulMonotone(b, a / b, k - 1);
      assert false;
    }
  }

  lemma MulMonotone(b: nat, x: nat, y: nat)
    requires x <= y
    ensures b * x <= b * y
  {
  }

  // ---------------------------------------------------------------------
  // The colour stage
  // ---------------------------------------------------------------------

  /** The palette fields a context keeps. */
  datatype ColorState = ColorState(
    usefulColors: seq<ColorCount>,
    usefulAmount: int,
    uselessAmount: int,
    similar: seq<Entry>)

  /** Useful entries are four-channel tuples, as the filter guarantees. */
  predicate ReadyColors(entries: seq<ColorCount>) {
    forall k :: 0 <= k < |entries| ==> entries[k].color.Channels? && |entries[k].color.values| == 4
  }

  /** The colours of the pairs of useful entries. */
  function RgbList(entries: seq<ColorCount>): (r: seq<Rgb>)
    requires ReadyColors(entries)
    ensures |r| == |entries| && forall k :: 0 <= k < |r| ==> |r[k]| == 3
  {
    seq(|entries|, k requires 0 <= k < |entries| => RgbOf(entries[k].color))
  }

  /** `get_similar_color_dict` then `sort_color_dict` on the useful entries. */
  function SimilarDict(perceptual: PerceptualDistance, entries: seq<ColorCount>): seq<Entry>
    requires ReadyColors(entries)
  {
    SortColorDict(PairGrid(perceptual, RgbList(entries), |entries|))
  }

  /** `handle_color_count` with `handle_color_amount`: the filter's result
      and the amounts, or the missing-transparency refusal when the filter
      raises (the state then keeps its earlier values). */
  function CountColors(all: seq<ColorCount>, st: ColorState, sev: Severity): (ColorState, Verdict, int) {
    match UsefulColors(all)
    case Raised(_) => (st, Verdict(Refused, [I.MissingTransparency]), 4)
    case Ok(kept) =>
      (st.(usefulColors := kept, usefulAmount := |kept|, uselessAmount := |all| - |kept|),
       Verdict(sev, [I.ColorAmount(|kept|)]), 0)
  }

  /** The entries `getcolors` reports for an RGBA image are tuples. */
  predicate TupleColors(colors: Option<seq<ColorCount>>) {
    colors.Some? ==> forall k :: 0 <= k < |colors.value| ==> colors.value[k].color.Channels?
  }

  /** The outcome of the colour stage: new verdict, added findings, change of
      suspicion and the context's palette fields. */
  datatype ColorOutcome = ColorOutcome(severity: Severity, findings: seq<I.Issue>, suspicion: int, state: ColorState)

  /** The similarity pass of `handle_sprite_colors`: it runs only when the
      useful colours are within the refused limit. */
  function SimilarityPass(st: ColorState, l: Limits, perceptual: PerceptualDistance, sev: Severity): (ColorState, Verdict)
    requires ReadyColors(st.usefulColors)
  {
    if st.usefulAmount <= l.refusedColor then
      var similar := SimilarDict(perceptual, st.usefulColors);
      (st.(similar := similar), SimilarityVerdict(|similar|, l, sev))
    else (st, Verdict(sev, []))
  }

  /** `handle_sprite_colors`. */
  function ColorStage(colors: Option<seq<ColorCount>>, l: Limits, software: string,
                      perceptual: PerceptualDistance, st: ColorState, sev: Severity): ColorOutcome
    requires TupleColors(colors) && ReadyColors(st.usefulColors)
  {
    match colors
    case None => ColorOutcome(Refused, [I.ColorOverExcess(AllColorLimit)], 6, st)
    case Some(all) =>
      CountColorsReady(all, st, sev);
      var (st1, v1, s1) := CountColors(all, st, sev);
      var v2 := ColorLimitVerdict(st1.usefulAmount, l, v1.severity);
      var (st3, v3) := SimilarityPass(st1, l, perceptual, v2.severity);
      ColorOutcome(v3.severity,
        v1.findings + v2.findings + v3.findings
          + AsepriteFindings(st1.usefulAmount, st1.uselessAmount) + GaleFindings(software),
        s1 - 2, st3)
  }

  /** The colour stage, step by step: the count, the limit, the similarity
      pass when within the limit, then the two editor hints. */
  lemma ColorStageSteps(all: seq<ColorCount>, l: Limits, software: string, perceptual: PerceptualDistance,
                        st0: ColorState, sev0: Severity, list0: seq<I.Issue>,
                        st1: ColorState, sev1: Severity, list1: seq<I.Issue>,
                        sev2: Severity, list2: seq<I.Issue>,
                        st3: ColorState, sev3: Severity, list3: seq<I.Issue>, list5: seq<I.Issue>)
    requires TupleColors(Some(all)) && ReadyColors(st0.usefulColors) && ReadyColors(st1.usefulColors)
    requires var (st, v, s) := CountColors(all, st0, sev0);
      st1 == st && sev1 == v.severity && list1 == list0 + v.findings
    requires var v := ColorLimitVerdict(st1.usefulAmount, l, sev1);
      sev2 == v.severity && list2 == list1 + v.findings
    requires var (st, v) := SimilarityPass(st1, l, perceptual, sev2);
      st3 == st && sev3 == v.severity && list3 == list2 + v.findings
    requires list5 == list3 + AsepriteFindings(st1.usefulAmount, st1.uselessAmount) + GaleFindings(software)
    ensures var out := ColorStage(Some(all), l, software, perceptual, st0, sev0);
      sev3 == out.severity && list5 == list0 + out.findings && st3 == out.state
      && out.suspicion == CountColors(all, st0, sev0).2 - 2
  {
    CountColorsReady(all, st0, sev0);
    var (_, v1, _) := CountColors(all, st0, sev0);
    var v2 := ColorLimitVerdict(st1.usefulAmount, l, sev1);
    var (_, v3) := SimilarityPass(st1, l, perceptual, sev2);
    var aseprite := AsepriteFindings(st1.usefulAmount, st1.uselessAmount);
    var gale := GaleFindings(software);
    assert ColorStage(Some(all), l, software, perceptual, st0, sev0)
        == ColorOutcome(sev3, v1.findings + v2.findings + v3.findings + aseprite + gale,
                        CountColors(all, st0, sev0).2 - 2, st3);
    AppendSteps(list0, v1.findings, list1, v2.findings, list2, v3.findings, list3, aseprite, gale, list5);
  }

  /** Five appends in a row add the five parts joined. */
  lemma AppendSteps<T>(l0: seq<T>, a: seq<T>, l1: seq<T>, b: seq<T>, l2: seq<T>, c: seq<T>, l3: seq<T>,
                       d: seq<T>, e: seq<T>, l5: seq<T>)
    requires l1 == l0 + a && l2 == l1 + b && l3 == l2 + c && l5 == l3 + d + e
    ensures l5 == l0 + (a + b + c + d + e)
  {
    assert l3 == l0 + (a + b + c);
  }

  /** The filter keeps only four-channel tuples out of tuple entries. */
  lemma CountColorsReady(all: seq<ColorCount>, st: ColorState, sev: Severity)
    requires forall k :: 0 <= k < |all| ==> all[k].color.Channels?
    requires ReadyColors(st.usefulColors)
    ensures ReadyColors(CountColors(all, st, sev).0.usefulColors)
  {
    UsefulColorsSpec(all);
    if UsefulColors(all).Ok? {
      var kept := UsefulColors(all).value;
      forall k | 0 <= k < |kept| ensures kept[k].color.Channels? && |kept[k].color.values| == 4 {
        assert kept[k] in kept;
        var m :| 0 <= m < |all| && all[m] == kept[k];
      }
    }
  }

  /** The colour stage never lowers the verdict. */
  lemma ColorStageRaises(colors: Option<seq<ColorCount>>, l: Limits, software: string,
                         perceptual: PerceptualDistance, st: ColorState, sev: Severity)
    requires TupleColors(colors) && ReadyColors(st.usefulColors)
    ensures Enums.Raised(sev, ColorStage(colors, l, software, perceptual, st, sev).severity)
  {
    if colors.Some? {
      var all := colors.value;
      var (st1, v1, s1) := CountColors(all, st, sev);
      var v2 := ColorLimitVerdict(st1.usefulAmount, l, v1.severity);
      RaisedTransitive(sev, v1.severity, v2.severity);
      CountColorsReady(all, st, sev);
      var (st3, v3) := SimilarityPass(st1, l, perceptual, v2.severity);
      RaisedTransitive(sev, v2.severity, v3.severity);
    }
  }

  /** More than 256 colours refuse the sprite with a single finding, and the
      similarity pass does not run. */
  lemma ColorStageOverExcess(l: Limits, software: string, perceptual: PerceptualDistance,
                             st: ColorState, sev: Severity)
    requires ReadyColors(st.usefulColors)
    ensures var out := ColorStage(None, l, software, perceptual, st, sev);
      out.severity == Refused && out.findings == [I.ColorOverExcess(AllColorLimit)]
      && !I.HasKind(out.findings, I.KSimilarityAmount) && out.state == st
  {
    var out := ColorStage(None, l, software, perceptual, st, sev);
    assert I.KindOf(out.findings[0]) != I.KSimilarityAmount;
  }

  /** With at most 256 colours, the similarity count is reported exactly
      when the useful colours are within the refused limit. */
  lemma ColorStageSimilarityGate(all: seq<ColorCount>, l: Limits, software: string,
                                 perceptual: PerceptualDistance, st: ColorState, sev: Severity)
    requires TupleColors(Some(all)) && ReadyColors(st.usefulColors)
    ensures var out := ColorStage(Some(all), l, software, perceptual, st, sev);
      I.HasKind(out.findings, I.KSimilarityAmount) <==> out.state.usefulAmount <= l.refusedColor
  {
    CountColorsReady(all, st, sev);
    var (st1, v1, s1) := CountColors(all, st, sev);
    var v2 := ColorLimitVerdict(st1.usefulAmount, l, v1.severity);
    var (st3, v3) := SimilarityPass(st1, l, perceptual, v2.severity);
    var rest := AsepriteFindings(st1.usefulAmount, st1.uselessAmount) + GaleFindings(software);
    assert ColorStage(Some(all), l, software, perceptual, st, sev)
        == ColorOutcome(v3.severity, v1.findings + v2.findings + v3.findings + rest, s1 - 2, st3);
    NoSimilarityAmount(v1.findings);
    NoSimilarityAmount(v2.findings);
    NoSimilarityAmount(rest);
    SimilarityPassGate(st1, l, perceptual, v2.severity);
    OnlyMiddleHasKind(v1.findings + v2.findings, v3.findings, rest, I.KSimilarityAmount);
    I.HasKindAppend(v1.findings, v2.findings, I.KSimilarityAmount);
  }

  /** The pass reports the similarity amount exactly when it runs, and it
      leaves the amounts alone. */
  lemma SimilarityPassGate(st: ColorState, l: Limits, perceptual: PerceptualDistance, sev: Severity)
    requires ReadyColors(st.usefulColors)
    ensures var (st3, v3) := SimilarityPass(st, l, perceptual, sev);
      (I.HasKind(v3.findings, I.KSimilarityAmount) <==> st.usefulAmount <= l.refusedColor)
      && st3.usefulAmount == st.usefulAmount && st3.uselessAmount == st.uselessAmount
      && st3.usefulColors == st.usefulColors
  {
    if st.usefulAmount <= l.refusedColor {
      SimilarityVerdictFirst(|SimilarDict(perceptual, st.usefulColors)|, l, sev);
    }
  }

  /** A list without a similarity-amount finding has no finding of that
      kind. */
  lemma NoSimilarityAmount(list: seq<I.Issue>)
    requires forall k :: 0 <= k < |list| ==> !list[k].SimilarityAmount?
    ensures !I.HasKind(list, I.KSimilarityAmount)
  {
    forall k | 0 <= k < |list| ensures I.KindOf(list[k]) != I.KSimilarityAmount {
    }
  }

  /** A kind found in neither outer list is found in the three together
      exactly when it is in the middle one. */
  lemma OnlyMiddleHasKind(a: seq<I.Issue>, b: seq<I.Issue>, c: seq<I.Issue>, kind: I.IssueKind)
    requires !I.HasKind(a, kind) && !I.HasKind(c, kind)
    ensures I.HasKind(a + b + c, kind) <==> I.HasKind(b, kind)
  {
    I.HasKindAppend(a, b, kind);
    I.HasKindAppend(a + b, c, kind);
  }

  /** When every entry can be judged, the useful count is the first finding
      of the stage, and the useful and useless amounts split the entries. */
  lemma ColorStageCountFirst(all: seq<ColorCount>, l: Limits, software: string,
                             perceptual: PerceptualDistance, st: ColorState, sev: Severity)
    requires TupleColors(Some(all)) && ReadyColors(st.usefulColors)
    requires UsefulColors(all).Ok?
    ensures var out := ColorStage(Some(all), l, software, perceptual, st, sev);
      out.findings[0] == I.ColorAmount(|UsefulColors(all).value|)
      && out.state.usefulAmount == |UsefulColors(all).value|
      && out.state.usefulAmount + out.state.uselessAmount == |all|
  {
  }

  // ---------------------------------------------------------------------
  // What the scans compute
  // ---------------------------------------------------------------------

  /** Two pixels of one decoded image have the same shape: both indices, or
      both tuples of one length. */
  predicate SameShape(a: Color, b: Color) {
    a.Indexed? == b.Indexed? && (a.Channels? ==> |a.values| == |b.values|)
  }

  /** Every pixel of a decoded image has the corner pixel's shape. */
  ghost predicate UniformPixels(pixels: array2<Color>)
    reads pixels
  {
    forall x, y :: 0 <= x < pixels.Length0 && 0 <= y < pixels.Length1 ==> SameShape(pixels[x, y], pixels[0, 0])
  }

  predicate FourChannels(c: Color) {
    c.Channels? && |c.values| == 4
  }

  /** The alpha channel of a four-channel pixel (the scans only read it of
      such pixels; any other pixel gets 0 here). */
  function AlphaOf(c: Color): int {
    if FourChannels(c) then c.values[3] else 0
  }

  /** The semi-transparent pixels of the `n` by `n` square from `(x, y)` on,
      in scan order. */
  ghost function HalfTransparentFrom(pixels: array2<Color>, n: nat, x: nat, y: nat): nat
    reads pixels
    requires n <= pixels.Length0 && n <= pixels.Length1 && x <= n && y <= n
    decreases n - x, n - y
  {
    if x == n then 0
    else if y == n then HalfTransparentFrom(pixels, n, x + 1, 0)
    else (if IsHalfTransparent(AlphaOf(pixels[x, y])) then 1 else 0) + HalfTransparentFrom(pixels, n, x, y + 1)
  }

  /** Counting from a pixel counts that pixel, then goes on from the next. */
  lemma HalfTransparentStep(pixels: array2<Color>, n: nat, i: nat, j: nat)
    requires n <= pixels.Length0 && n <= pixels.Length1 && i < n && j < n
    ensures HalfTransparentFrom(pixels, n, i, j)
      == (if IsHalfTransparent(AlphaOf(pixels[i, j])) then 1 else 0) + HalfTransparentFrom(pixels, n, i, j + 1)
  {
  }

  /** Some pixel of the square is fully transparent. */
  ghost predicate HasClearPixel(pixels: array2<Color>, n: nat)
    reads pixels
    requires n <= pixels.Length0 && n <= pixels.Length1
  {
    exists x, y :: 0 <= x < n && 0 <= y < n && AlphaOf(pixels[x, y]) == 0
  }

  /** What `highlight_transparency` returns: nothing to count for an indexed
      image, the transparency exception for tuples of other than four
      channels or for an image without a fully transparent pixel, and
      otherwise the number of semi-transparent pixels. */
  ghost function TransparencyAmount(pixels: array2<Color>, n: nat): Result<nat>
    reads pixels
    requires 0 < n <= pixels.Length0 && n <= pixels.Length1
  {
    if pixels[0, 0].Indexed? then Ok(0)
    else if !FourChannels(pixels[0, 0]) then Raised(TransparencyException)
    else if !HasClearPixel(pixels, n) then Raised(TransparencyException)
    else Ok(HalfTransparentFrom(pixels, n, 0, 0))
  }

  /** The transparency highlight: blank for an indexed image, otherwise each
      pixel coloured by its alpha. */
  ghost predicate TransparencyImage(pixels: array2<Color>, n: nat, image: array2<Color>)
    reads pixels, image
    requires 0 < n <= pixels.Length0 && n <= pixels.Length1
  {
    image.Length0 == n && image.Length1 == n
    && forall x, y :: 0 <= x < n && 0 <= y < n ==>
      image[x, y] == if pixels[0, 0].Indexed? then Clear else TransparencyHighlight(AlphaOf(pixels[x, y]))
  }

  /** `(x, y)` comes before `(i, j)` in scan order. */
  predicate Scanned(x: int, y: int, i: int, j: int) {
    x < i || (x == i && y < j)
  }

  /** Some fully transparent pixel comes before `(i, j)`. */
  ghost predicate ClearBefore(pixels: array2<Color>, n: nat, i: int, j: int)
    reads pixels
    requires n <= pixels.Length0 && n <= pixels.Length1
  {
    exists x, y :: 0 <= x < n && 0 <= y < n && Scanned(x, y, i, j) && AlphaOf(pixels[x, y]) == 0
  }

  /** The pixels before `(i, j)` carry their highlight, the rest are blank. */
  ghost predicate PaintedBefore(pixels: array2<Color>, image: array2<Color>, i: int, j: int)
    reads pixels, image
    requires image.Length0 <= pixels.Length0 && image.Length1 <= pixels.Length1
  {
    (forall x, y :: 0 <= x < image.Length0 && 0 <= y < image.Length1 && Scanned(x, y, i, j) ==>
       image[x, y] == TransparencyHighlight(AlphaOf(pixels[x, y])))
    && (forall x, y :: 0 <= x < image.Length0 && 0 <= y < image.Length1 && !Scanned(x, y, i, j) ==>
          image[x, y] == Clear)
  }

  lemma ClearBeforeNext(pixels: array2<Color>, n: nat, i: int, j: int)
    requires n <= pixels.Length0 && n <= pixels.Length1 && 0 <= i < n && 0 <= j < n
    ensures ClearBefore(pixels, n, i, j + 1) == (ClearBefore(pixels, n, i, j) || AlphaOf(pixels[i, j]) == 0)
  {
    if ClearBefore(pixels, n, i, j + 1) {
      var x, y :| 0 <= x < n && 0 <= y < n && Scanned(x, y, i, j + 1) && AlphaOf(pixels[x, y]) == 0;
      if x != i || y != j {
        assert Scanned(x, y, i, j);
      }
    }
    if ClearBefore(pixels, n, i, j) {
      var x, y :| 0 <= x < n && 0 <= y < n && Scanned(x, y, i, j) && AlphaOf(pixels[x, y]) == 0;
      assert Scanned(x, y, i, j + 1);
    }
    if AlphaOf(pixels[i, j]) == 0 {
      assert Scanned(i, j, i, j + 1);
    }
  }

  /** Writes the highlight of `(i, j)`, the next pixel in scan order. */
  method PaintNext(pixels: array2<Color>, image: array2<Color>, i: int, j: int, c: Color)
    requires image != pixels && image.Length0 <= pixels.Length0 && image.Length1 <= pixels.Length1
    requires 0 <= i < image.Length0 && 0 <= j < image.Length1
    requires c == TransparencyHighlight(AlphaOf(pixels[i, j]))
    requires PaintedBefore(pixels, image, i, j)
    modifies image
    ensures PaintedBefore(pixels, image, i, j + 1)
  {
    image[i, j] := c;
    forall x, y | 0 <= x < image.Length0 && 0 <= y < image.Length1 && Scanned(x, y, i, j + 1)
      ensures image[x, y] == TransparencyHighlight(AlphaOf(pixels[x, y]))
    {
      if x != i || y != j {
        assert Scanned(x, y, i, j);
      }
    }
  }

  /** The end of a row is the start of the next one. */
  lemma RowDone(pixels: array2<Color>, image: array2<Color>, n: nat, i: int)
    requires n <= pixels.Length0 && n <= pixels.Length1 && image.Length0 == n && image.Length1 == n
    ensures ClearBefore(pixels, n, i, n) == ClearBefore(pixels, n, i + 1, 0)
    ensures PaintedBefore(pixels, image, i, n) == PaintedBefore(pixels, image, i + 1, 0)
  {
    assert forall x, y :: 0 <= y < n ==> Scanned(x, y, i, n) == Scanned(x, y, i + 1, 0);
  }

  /** Past the last row, the whole square has been scanned. */
  lemma WholeSquareScanned(pixels: array2<Color>, image: array2<Color>, n: nat)
    requires n <= pixels.Length0 && n <= pixels.Length1 && image.Length0 == n && image.Length1 == n
    ensures ClearBefore(pixels, n, n, 0) == HasClearPixel(pixels, n)
    ensures PaintedBefore(pixels, image, n, 0) ==>
      forall x, y :: 0 <= x < n && 0 <= y < n ==> image[x, y] == TransparencyHighlight(AlphaOf(pixels[x, y]))
  {
    assert forall x, y :: 0 <= x < n ==> Scanned(x, y, n, 0);
  }

  /** The next member of the range is reached too. */
  lemma {:induction false} ReachesNext(start: int, i: int, step: nat)
    requires step >= 1 && Reaches(start, i, step)
    decreases i - start
    ensures Reaches(start, i + step, step)
  {
    if start != i {
      ReachesNext(start + step, i, step);
    }
  }

  /** A position inside a scanned block takes that block's highlight. */
  lemma HighlightInBlock(pixels: array2<Color>, di: int, stopI: int, dj: int, stopJ: int, step: nat,
                         i: int, j: int, x: int, y: int)
    requires step >= 1 && 0 <= di && stopI <= pixels.Length0 && 0 <= dj && stopJ <= pixels.Length1
    requires Reaches(di, i, step) && Reaches(dj, j, step) && i < stopI && j < stopJ
    requires i <= x < i + step && j <= y < j + step
    ensures 0 <= i < pixels.Length0 && 0 <= j < pixels.Length1
    ensures HalfPixelHighlight(pixels, di, stopI, dj, stopJ, step, x, y) == BlockColor(pixels, i, j, step)
  {
    ReachesAtLeast(di, i, step);
    ReachesAtLeast(dj, j, step);
    BlockOfFrom(x, di, i, stopI, step);
    BlockOfFrom(y, dj, j, stopJ, step);
  }

  /** The rows of blocks before `i`, and the blocks of row `i` before
      column `j`, carry their highlight; everything else is blank. */
  ghost predicate HalfPainted(pixels: array2<Color>, image: array2<Color>, di: int, stopI: int, dj: int, stopJ: int,
                              step: nat, i: int, j: int)
    reads pixels, image
    requires step >= 1 && 0 <= di && stopI <= pixels.Length0 && 0 <= dj && stopJ <= pixels.Length1
  {
    forall x, y :: 0 <= x < image.Length0 && 0 <= y < image.Length1 ==>
      image[x, y] == if x < i || (x < i + step && y < j)
                     then HalfPixelHighlight(pixels, di, stopI, dj, stopJ, step, x, y) else Clear
  }

  /** A blank image is painted up to the first row of blocks. */
  lemma GridStart(pixels: array2<Color>, image: array2<Color>, di: int, stopI: int, dj: int, stopJ: int, step: nat)
    requires step >= 1 && 0 <= di && stopI <= pixels.Length0 && 0 <= dj && stopJ <= pixels.Length1
    requires forall x, y :: 0 <= x < image.Length0 && 0 <= y < image.Length1 ==> image[x, y] == Clear
    ensures HalfPainted(pixels, image, di, stopI, dj, stopJ, step, di, 0)
  {
    forall x, y | 0 <= x < image.Length0 && 0 <= y < image.Length1 && x < di
      ensures HalfPixelHighlight(pixels, di, stopI, dj, stopJ, step, x, y) == Clear
    {
      assert BlockOf(x, di, stopI, step).None?;
    }
  }

  /** Before the row's first block nothing is highlighted. */
  lemma RowStart(pixels: array2<Color>, image: array2<Color>, di: int, stopI: int, dj: int, stopJ: int,
                 step: nat, i: int)
    requires step >= 1 && 0 <= di && stopI <= pixels.Length0 && 0 <= dj && stopJ <= pixels.Length1
    requires HalfPainted(pixels, image, di, stopI, dj, stopJ, step, i, 0)
    ensures HalfPainted(pixels, image, di, stopI, dj, stopJ, step, i, dj)
  {
    forall x, y | 0 <= x < image.Length0 && 0 <= y < image.Length1 && i <= x < i + step && y < dj
      ensures HalfPixelHighlight(pixels, di, stopI, dj, stopJ, step, x, y) == Clear
    {
      assert BlockOf(y, dj, stopJ, step).None?;
    }
  }

  /** Past the row's last block nothing is highlighted. */
  lemma RowEnd(pixels: array2<Color>, image: array2<Color>, di: int, stopI: int, dj: int, stopJ: int,
               step: nat, i: int, j: int)
    requires step >= 1 && 0 <= di && stopI <= pixels.Length0 && 0 <= dj && stopJ <= pixels.Length1
    requires Reaches(dj, j, step) && j >= stopJ
    requires HalfPainted(pixels, image, di, stopI, dj, stopJ, step, i, j)
    ensures HalfPainted(pixels, image, di, stopI, dj, stopJ, step, i + step, 0)
  {
    forall x, y | 0 <= x < image.Length0 && 0 <= y < image.Length1 && i <= x < i + step && j <= y
      ensures HalfPixelHighlight(pixels, di, stopI, dj, stopJ, step, x, y) == Clear
    {
      BlockOfPast(y, dj, j, stopJ, step);
    }
  }

  /** Past the last row of blocks nothing is highlighted. */
  lemma GridDone(pixels: array2<Color>, image: array2<Color>, di: int, stopI: int, dj: int, stopJ: int,
                 step: nat, i: int)
    requires step >= 1 && 0 <= di && stopI <= pixels.Length0 && 0 <= dj && stopJ <= pixels.Length1
    requires Reaches(di, i, step) && i >= stopI
    requires HalfPainted(pixels, image, di, stopI, dj, stopJ, step, i, 0)
    ensures forall x, y :: 0 <= x < image.Length0 && 0 <= y < image.Length1 ==>
      image[x, y] == HalfPixelHighlight(pixels, di, stopI, dj, stopJ, step, x, y)
  {
    forall x, y | 0 <= x < image.Length0 && 0 <= y < image.Length1 && i <= x
      ensures HalfPixelHighlight(pixels, di, stopI, dj, stopJ, step, x, y) == Clear
    {
      BlockOfPast(x, di, i, stopI, step);
    }
  }

  /** Past the end of a range no block holds a position. */
  lemma BlockOfPast(x: int, start: int, i: int, stop: int, step: nat)
    requires step >= 1 && Reaches(start, i, step) && stop <= i <= x
    ensures BlockOf(x, start, stop, step).None?
  {
    BlockOfFrom(x, start, i, stop, step);
  }

  /** A stage only raises the verdict and only appends findings. */
  predicate Grew(sev0: Severity, list0: seq<I.Issue>, sev1: Severity, list1: seq<I.Issue>) {
    Enums.Raised(sev0, sev1) && list0 <= list1
  }

  /** Stages run one after the other still only raise and append. */
  lemma GrewTransitive(sev0: Severity, list0: seq<I.Issue>, sev1: Severity, list1: seq<I.Issue>,
                       sev2: Severity, list2: seq<I.Issue>)
    requires Grew(sev0, list0, sev1, list1) && Grew(sev1, list1, sev2, list2)
    ensures Grew(sev0, list0, sev2, list2)
  {
    RaisedTransitive(sev0, sev1, sev2);
  }

  /** Once refused, a growing verdict stays refused, and an earlier finding
      is still there. */
  lemma GrewKeeps(sev0: Severity, list0: seq<I.Issue>, sev1: Severity, list1: seq<I.Issue>, x: I.Issue)
    requires Grew(sev0, list0, sev1, list1)
    ensures sev0 == Refused ==> sev1 == Refused
    ensures x in list0 ==> x in list1
  {
    if x in list0 {
      var k :| 0 <= k < |list0| && list0[k] == x;
      assert list1[k] == x;
    }
  }

  // ---------------------------------------------------------------------
  // The context
  // ---------------------------------------------------------------------

  class SpriteContext {
    /** The pixels as read from the image before its RGBA conversion. */
    const pixels: array2<Color>
    const format: Option<string>
    const software: string
    /** `getcolors(256)` of the converted image. */
    const colors: Option<seq<ColorCount>>
    const perceptual: PerceptualDistance
    const limits: Limits
    const eggSprite: bool
    const maxSize: nat
    const step: nat

    var usefulAmount: int
    var uselessAmount: int
    var usefulColors: seq<ColorCount>
    var similarColorDict: seq<Entry>

    /** What decoding guarantees and the constructor sets up. */
    ghost predicate Valid()
      reads this, pixels
    {
      ((maxSize == MaxSize && step == NormalStep) || (maxSize == EggSize && step == EggStep))
      && UniformPixels(pixels)
      && TupleColors(colors)
      && ReadyColors(usefulColors)
    }

    function State(): ColorState
      reads this
    {
      ColorState(usefulColors, usefulAmount, uselessAmount, similarColorDict)
    }

    /** `__init__`: the thresholds are the strict ones for the assets gallery
        or a custom base; an egg sprite is checked as 160 by 160 in blocks of
        2, anything else as 288 by 288 in blocks of 3. The source refuses to
        start without an image URL. */
    constructor (analysis: Analysis, pixels: array2<Color>, format: Option<string>, software: string,
                 colors: Option<seq<ColorCount>>, perceptual: PerceptualDistance)
      requires analysis.attachmentUrl.Some?
      requires UniformPixels(pixels) && TupleColors(colors)
      ensures Valid()
      ensures this.pixels == pixels && this.format == format && this.software == software
      ensures this.colors == colors && this.perceptual == perceptual
      ensures limits == LimitsFor(analysis.analysisType.IsAssetsGallery() || analysis.issues.HasIssue(I.KCustomBase))
      ensures eggSprite == analysis.issues.HasIssue(I.KEggSprite)
      ensures eggSprite ==> maxSize == EggSize && step == EggStep
      ensures !eggSprite ==> maxSize == MaxSize && step == NormalStep
      ensures State() == ColorState([], 0, 0, [])
    {
      this.pixels := pixels;
      this.format := format;
      this.software := software;
      this.colors := colors;
      this.perceptual := perceptual;
      usefulAmount := 0;
      uselessAmount := 0;
      usefulColors := [];
      similarColorDict := [];
      if analysis.analysisType.IsAssetsGallery() || analysis.issues.HasIssue(I.KCustomBase) {
        limits := Limits(32, 20, 15, 6);
      } else {
        limits := Limits(64, 32, 20, 10);
      }
      var egg := analysis.issues.HasIssue(I.KEggSprite);
      eggSprite := egg;
      if egg {
        maxSize := EggSize;
        step := EggStep;
      } else {
        maxSize := MaxSize;
        step := NormalStep;
      }
    }

    /** `handle_sprite_format`. */
    method HandleSpriteFormat(analysis: Analysis)
      modifies analysis`severity, analysis.issues
      ensures analysis.severity == FormatVerdict(format, old(analysis.severity)).severity
      ensures analysis.issues.issueList
        == old(analysis.issues.issueList) + FormatVerdict(format, old(analysis.severity)).findings
      ensures Grew(old(analysis.severity), old(analysis.issues.issueList), analysis.severity, analysis.issues.issueList)
    {
      if format != Some("PNG") {
        analysis.severity := Refused;
        analysis.issues.Add(I.NotPng(format));
      }
    }

    /** `handle_sprite_size`: the size is the image's; a wrong size sets the
        size flag that later stages look at. */
    method HandleSpriteSize(analysis: Analysis)
      modifies analysis`severity, analysis`sizeIssue, analysis`aiSuspicion, analysis.issues
      ensures var v := SizeVerdict(pixels.Length0, pixels.Length1, maxSize, old(analysis.severity));
        analysis.severity == v.severity
        && analysis.issues.issueList == old(analysis.issues.issueList) + v.findings
      ensures analysis.sizeIssue
        == (old(analysis.sizeIssue) || pixels.Length0 != maxSize || pixels.Length1 != maxSize)
      ensures analysis.aiSuspicion == old(analysis.aiSuspicion) + SizeSuspicion(pixels.Length0, pixels.Length1, maxSize)
      ensures Grew(old(analysis.severity), old(analysis.issues.issueList), analysis.severity, analysis.issues.issueList)
    {
      var width, height := pixels.Length0, pixels.Length1;
      if width == maxSize && height == maxSize {
        analysis.aiSuspicion := analysis.aiSuspicion - 4;
        return;
      }
      analysis.sizeIssue := true;
      analysis.severity := Refused;
      analysis.issues.Add(I.InvalidSize(width, height));
      if width == 1024 && height == 1024 {
        analysis.aiSuspicion := analysis.aiSuspicion + 8;
      } else if width == 96 && height == 96 {
        analysis.aiSuspicion := analysis.aiSuspicion - 2;
      }
    }

    /** `handle_color_count`. */
    method HandleColorCount(analysis: Analysis, allColors: seq<ColorCount>)
      requires Valid() && forall k :: 0 <= k < |allColors| ==> allColors[k].color.Channels?
      modifies this`usefulColors, this`usefulAmount, this`uselessAmount
      modifies analysis`severity, analysis`aiSuspicion, analysis.issues
      ensures Valid()
      ensures var (st, v, s) := CountColors(allColors, old(State()), old(analysis.severity));
        State() == st && analysis.severity == v.severity
        && analysis.issues.issueList == old(analysis.issues.issueList) + v.findings
        && analysis.aiSuspicion == old(analysis.aiSuspicion) + s
    {
      CountColorsReady(allColors, State(), analysis.severity);
      var kept := RemoveUselessColors(allColors);
      if kept.Raised? {
        analysis.severity := Refused;
        analysis.issues.Add(I.MissingTransparency);
        analysis.aiSuspicion := analysis.aiSuspicion + 4;
        return;
      }
      usefulColors := kept.value;
      HandleColorAmount(analysis, allColors);
    }

    /** `handle_color_amount`. */
    method HandleColorAmount(analysis: Analysis, allColors: seq<ColorCount>)
      modifies this`usefulAmount, this`uselessAmount, analysis.issues
      ensures usefulAmount == |usefulColors| && uselessAmount == |allColors| - |usefulColors|
      ensures analysis.issues.issueList == old(analysis.issues.issueList) + [I.ColorAmount(|usefulColors|)]
    {
      var allAmount := |allColors|;
      usefulAmount := |usefulColors|;
      uselessAmount := allAmount - usefulAmount;
      analysis.issues.Add(I.ColorAmount(usefulAmount));
    }

    /** `get_similarity_amount`: the sorted dictionary of similar pairs of
        useful colours, and its size. */
    method GetSimilarityAmount() returns (amount: int)
      requires Valid()
      modifies this`similarColorDict
      ensures Valid()
      ensures similarColorDict == SimilarDict(perceptual, usefulColors)
      ensures amount == |similarColorDict|
    {
      var rgbColorList := GetRgbColorList(usefulColors);
      assert rgbColorList == RgbList(usefulColors);
      similarColorDict := GetSimilarColorDict(perceptual, rgbColorList);
      similarColorDict := SortColorDict(similarColorDict);
      amount := |similarColorDict|;
    }

    /** `handle_color_similarity`. */
    method HandleColorSimilarity(analysis: Analysis)
      requires Valid()
      modifies this`similarColorDict, analysis`severity, analysis.issues
      ensures Valid()
      ensures similarColorDict == SimilarDict(perceptual, usefulColors)
      ensures var v := SimilarityVerdict(|similarColorDict|, limits, old(analysis.severity));
        analysis.severity == v.severity
        && analysis.issues.issueList == old(analysis.issues.issueList) + v.findings
    {
      var similarityAmount := GetSimilarityAmount();
      analysis.issues.Add(I.SimilarityAmount(similarityAmount));
      if similarityAmount > limits.refusedSim {
        analysis.severity := Refused;
        analysis.issues.Add(I.SimilarityExcessRefused(limits.refusedSim));
      } else if similarityAmount > limits.controvSim && analysis.severity != Refused {
        analysis.severity := Controversial;
        analysis.issues.Add(I.SimilarityExcessControversial(limits.controvSim));
      }
    }

    /** `handle_color_limit`. */
    method HandleColorLimit(analysis: Analysis)
      modifies analysis`severity, analysis.issues
      ensures var v := ColorLimitVerdict(usefulAmount, limits, old(analysis.severity));
        analysis.severity == v.severity
        && analysis.issues.issueList == old(analysis.issues.issueList) + v.findings
    {
      if usefulAmount > limits.refusedColor {
        analysis.issues.Add(I.ColorExcessRefused(limits.refusedColor));
        analysis.severity := Refused;
      } else if usefulAmount > limits.controvColor {
        analysis.issues.Add(I.ColorExcessControversial(limits.controvColor));
        if analysis.severity != Refused {
          analysis.severity := Controversial;
        }
      }
    }

    /** `handle_aseprite`. */
    method HandleAseprite(analysis: Analysis)
      modifies analysis.issues
      ensures analysis.issues.issueList
        == old(analysis.issues.issueList) + AsepriteFindings(usefulAmount, uselessAmount)
    {
      if usefulAmount != 0 {
        if uselessAmount > AsepriteRatio * usefulAmount {
          analysis.issues.Add(I.AsepriteUser(uselessAmount / usefulAmount));
        }
      }
    }

    /** `handle_graphics_gale`. */
    method HandleGraphicsGale(analysis: Analysis)
      modifies analysis.issues
      ensures analysis.issues.issueList == old(analysis.issues.issueList) + GaleFindings(software)
    {
      if Contains(software, "GLDPNG") {
        analysis.issues.Add(I.GraphicsGaleUser);
      }
    }

    /** `handle_sprite_colors`: an overflowing palette is refused outright;
        otherwise the count, the limits, the similarity pass when the useful
        colours are within the refused limit, and the two editor hints. */
    method HandleSpriteColors(analysis: Analysis)
      requires Valid()
      modifies this`usefulColors, this`usefulAmount, this`uselessAmount, this`similarColorDict
      modifies analysis`severity, analysis`aiSuspicion, analysis.issues
      ensures Valid()
      ensures var out := ColorStage(colors, limits, software, perceptual, old(State()), old(analysis.severity));
        analysis.severity == out.severity
        && analysis.issues.issueList == old(analysis.issues.issueList) + out.findings
        && analysis.aiSuspicion == old(analysis.aiSuspicion) + out.suspicion
        && State() == out.state
      ensures Grew(old(analysis.severity), old(analysis.issues.issueList), analysis.severity, analysis.issues.issueList)
    {
      if colors.None? {
        analysis.severity := Refused;
        analysis.issues.Add(I.ColorOverExcess(AllColorLimit));
        analysis.aiSuspicion := analysis.aiSuspicion + 6;
        return;
      }
      ghost var st0, sev0, list0 := State(), analysis.severity, analysis.issues.issueList;
      HandleColorCount(analysis, colors.value);
      ghost var st1, sev1, list1 := State(), analysis.severity, analysis.issues.issueList;
      HandleColorLimit(analysis);
      ghost var sev2, list2 := analysis.severity, analysis.issues.issueList;
      if usefulAmount <= limits.refusedColor {
        HandleColorSimilarity(analysis);
      }
      ghost var st3, sev3, list3 := State(), analysis.severity, analysis.issues.issueList;
      HandleAseprite(analysis);
      HandleGraphicsGale(analysis);
      analysis.aiSuspicion := analysis.aiSuspicion - 2;
      ColorStageSteps(colors.value, limits, software, perceptual, st0, sev0, list0, st1, sev1, list1,
                      sev2, list2, st3, sev3, list3, analysis.issues.issueList);
    }

    /** `highlight_transparency`: scans the square row by row, paints each
        pixel pink, black or white by its alpha and counts the pink ones. */
    method HighlightTransparency() returns (outcome: Result<nat>, image: array2<Color>)
      requires Valid() && maxSize <= pixels.Length0 && maxSize <= pixels.Length1
      ensures fresh(image)
      ensures outcome == TransparencyAmount(pixels, maxSize)
      ensures outcome.Ok? ==> TransparencyImage(pixels, maxSize, image)
    {
      image := new Color[maxSize, maxSize]((x, y) => Clear);
      var firstPixel := pixels[0, 0];
      if firstPixel.Indexed? {
        return Ok(0), image;
      }
      var failure, transparencyAmount, isThereTransparency := ScanRows(image);
      if failure.Some? {
        return Raised(failure.value), image;
      }
      if !isThereTransparency {
        return Raised(TransparencyException), image;
      }
      return Ok(transparencyAmount), image;
    }

    /** The scan of `highlight_transparency`, row after row: the count of
        half-transparent pixels, whether a clear one was seen, and the
        painted image, unless reading the first pixel's alpha raises. */
    method ScanRows(image: array2<Color>) returns (failure: Option<string>, amount: nat, seen: bool)
      requires Valid() && maxSize <= pixels.Length0 && maxSize <= pixels.Length1 && !pixels[0, 0].Indexed?
      requires image != pixels && image.Length0 == maxSize && image.Length1 == maxSize
      requires forall x, y :: 0 <= x < maxSize && 0 <= y < maxSize ==> image[x, y] == Clear
      modifies image
      ensures failure.Some? ==> !FourChannels(pixels[0, 0]) && failure.value == TransparencyException
      ensures failure.None? ==>
        FourChannels(pixels[0, 0])
        && amount == HalfTransparentFrom(pixels, maxSize, 0, 0)
        && seen == HasClearPixel(pixels, maxSize)
        && forall x, y :: 0 <= x < maxSize && 0 <= y < maxSize ==>
             image[x, y] == TransparencyHighlight(AlphaOf(pixels[x, y]))
    {
      amount, seen := 0, false;
      var i := 0;
      while i < maxSize
        invariant 0 <= i <= maxSize
        invariant i > 0 ==> FourChannels(pixels[0, 0])
        invariant amount + HalfTransparentFrom(pixels, maxSize, i, 0) == HalfTransparentFrom(pixels, maxSize, 0, 0)
        invariant seen == ClearBefore(pixels, maxSize, i, 0)
        invariant PaintedBefore(pixels, image, i, 0)
      {
        failure, amount, seen := ScanRow(image, i, amount, seen);
        if failure.Some? {
          return;
        }
        i := i + 1;
      }
      failure := None;
      WholeSquareScanned(pixels, image, maxSize);
    }

    /** One row of `highlight_transparency`: the alpha of every pixel of row
        `i`, where reading the alpha of the first pixel may raise. */
    method ScanRow(image: array2<Color>, i: nat, amount0: nat, seen0: bool)
      returns (failure: Option<string>, amount: nat, seen: bool)
      requires Valid() && maxSize <= pixels.Length0 && maxSize <= pixels.Length1
      requires image != pixels && image.Length0 == maxSize && image.Length1 == maxSize
      requires i < maxSize && !pixels[0, 0].Indexed? && (i > 0 ==> FourChannels(pixels[0, 0]))
      requires amount0 + HalfTransparentFrom(pixels, maxSize, i, 0) == HalfTransparentFrom(pixels, maxSize, 0, 0)
      requires seen0 == ClearBefore(pixels, maxSize, i, 0)
      requires PaintedBefore(pixels, image, i, 0)
      modifies image
      ensures failure.Some? ==> i == 0 && !FourChannels(pixels[0, 0]) && failure.value == TransparencyException
      ensures failure.None? ==>
        FourChannels(pixels[0, 0])
        && amount + HalfTransparentFrom(pixels, maxSize, i + 1, 0) == HalfTransparentFrom(pixels, maxSize, 0, 0)
        && seen == ClearBefore(pixels, maxSize, i + 1, 0)
        && PaintedBefore(pixels, image, i + 1, 0)
    {
      amount, seen := amount0, seen0;
      var j := 0;
      while j < maxSize
        invariant 0 <= j <= maxSize
        invariant i > 0 || j > 0 ==> FourChannels(pixels[0, 0])
        invariant amount + HalfTransparentFrom(pixels, maxSize, i, j) == HalfTransparentFrom(pixels, maxSize, 0, 0)
        invariant seen == ClearBefore(pixels, maxSize, i, j)
        invariant PaintedBefore(pixels, image, i, j)
      {
        failure, amount, seen := ScanPixel(image, i, j, amount, seen);
        if failure.Some? {
          return;
        }
        ClearBeforeNext(pixels, maxSize, i, j);
        HalfTransparentStep(pixels, maxSize, i, j);
        j := j + 1;
      }
      RowDone(pixels, image, maxSize, i);
      failure := None;
    }

    /** Every pixel has the corner pixel's shape. */
    lemma SameShapeAt(x: int, y: int)
      requires Valid() && 0 <= x < pixels.Length0 && 0 <= y < pixels.Length1
      ensures SameShape(pixels[x, y], pixels[0, 0])
    {
    }

    /** The grid offset of a scan: none for the strict one, the first
        differing pixel's for the shifted one. */
    ghost function GridOffset(strictGrid: bool): (nat, nat)
      reads this, pixels
      requires Valid() && maxSize <= pixels.Length0 && maxSize <= pixels.Length1
      ensures GridOffset(strictGrid).0 <= step && GridOffset(strictGrid).1 <= step
    {
      if strictGrid then (0, 0) else FirstOffset(pixels, maxSize)
    }

    /** What `highlight_half_pixels` counts: `step * step` for each mixed
        block of the grid at the scan's offset. */
    ghost function HalfPixelAmount(strictGrid: bool): nat
      reads this, pixels
      requires Valid() && maxSize <= pixels.Length0 && maxSize <= pixels.Length1
    {
      var (di, dj) := GridOffset(strictGrid);
      GridRed(pixels, di, maxSize - (step - di), dj, maxSize - (step - dj), step)
    }

    /** The image `highlight_half_pixels` paints: each visited block red or
        green, every other pixel blank. */
    ghost predicate HalfPixelImage(image: array2<Color>, strictGrid: bool)
      reads this, pixels, image
      requires Valid() && maxSize <= pixels.Length0 && maxSize <= pixels.Length1
    {
      var (di, dj) := GridOffset(strictGrid);
      image.Length0 == maxSize && image.Length1 == maxSize
      && forall x, y :: 0 <= x < maxSize && 0 <= y < maxSize ==>
           image[x, y] == HalfPixelHighlight(pixels, di, maxSize - (step - di), dj, maxSize - (step - dj), step, x, y)
    }

    /** The count is `step * step` times the number of mixed blocks. */
    lemma HalfPixelAmountBlocks(strictGrid: bool)
      requires Valid() && maxSize <= pixels.Length0 && maxSize <= pixels.Length1
      ensures var (di, dj) := GridOffset(strictGrid);
        HalfPixelAmount(strictGrid)
        == step * step * GridRedBlocks(pixels, di, maxSize - (step - di), dj, maxSize - (step - dj), step)
    {
      var (di, dj) := GridOffset(strictGrid);
      GridRedIsBlocks(pixels, di, maxSize - (step - di), dj, maxSize - (step - dj), step);
    }

    /** `highlight_half_pixels`: visits the blocks of the grid from the
        offset up to one block short of `max_size - step + offset`, paints
        each one red when it holds more than one colour and green otherwise,
        and counts `step * step` for every red block. */
    method HighlightHalfPixels(strictGrid: bool) returns (amount: nat, image: array2<Color>)
      requires Valid() && maxSize <= pixels.Length0 && maxSize <= pixels.Length1
      ensures fresh(image)
      ensures amount == HalfPixelAmount(strictGrid)
      ensures HalfPixelImage(image, strictGrid)
    {
      var di, dj := 0, 0;
      if !strictGrid {
        di, dj := FindFirstPixel(pixels, maxSize);
      }
      assert (di, dj) == GridOffset(strictGrid);
      amount, image := ScanGrid(di, dj);
      ScanResult(image, strictGrid, di, dj, amount);
    }

    /** The two loops of `highlight_half_pixels` over the grid at offset
        `(di, dj)`. */
    method ScanGrid(di: nat, dj: nat) returns (amount: nat, image: array2<Color>)
      requires Valid() && maxSize <= pixels.Length0 && maxSize <= pixels.Length1
      requires di <= step && dj <= step
      ensures fresh(image) && image.Length0 == maxSize && image.Length1 == maxSize
      ensures amount == GridRed(pixels, di, maxSize - (step - di), dj, maxSize - (step - dj), step)
      ensures forall x, y :: 0 <= x < image.Length0 && 0 <= y < image.Length1 ==>
        image[x, y] == HalfPixelHighlight(pixels, di, maxSize - (step - di), dj, maxSize - (step - dj), step, x, y)
    {
      image := new Color[maxSize, maxSize]((x, y) => Clear);
      var stopI := maxSize - (step - di);
      var stopJ := maxSize - (step - dj);
      amount := 0;
      GridFits();
      ghost var total := GridRed(pixels, di, stopI, dj, stopJ, step);
      GridStart(pixels, image, di, stopI, dj, stopJ, step);
      var i := di;
      while i < stopI
        invariant di <= i && Reaches(di, i, step) && image != pixels
        invariant image.Length0 == maxSize && image.Length1 == maxSize
        invariant amount + GridRed(pixels, i, stopI, dj, stopJ, step) == total
        invariant HalfPainted(pixels, image, di, stopI, dj, stopJ, step, i, 0)
        decreases stopI - i
      {
        BlockInside(di, i, maxSize, step);
        amount := RecolorRow(image, di, stopI, dj, stopJ, i, amount);
        ReachesNext(di, i, step);
        i := i + step;
      }
      GridDone(pixels, image, di, stopI, dj, stopJ, step, i);
    }

    /** The finished scan is the one its offset defines. */
    lemma ScanResult(image: array2<Color>, strictGrid: bool, di: nat, dj: nat, amount: nat)
      requires Valid() && maxSize <= pixels.Length0 && maxSize <= pixels.Length1
      requires (di, dj) == GridOffset(strictGrid)
      requires amount == GridRed(pixels, di, maxSize - (step - di), dj, maxSize - (step - dj), step)
      requires image.Length0 == maxSize && image.Length1 == maxSize
      requires forall x, y :: 0 <= x < image.Length0 && 0 <= y < image.Length1 ==>
        image[x, y] == HalfPixelHighlight(pixels, di, maxSize - (step - di), dj, maxSize - (step - dj), step, x, y)
      ensures amount == HalfPixelAmount(strictGrid)
      ensures HalfPixelImage(image, strictGrid)
    {
    }

    /** One row of blocks of `highlight_half_pixels`. */
    method RecolorRow(image: array2<Color>, di: nat, stopI: int, dj: nat, stopJ: int, i: int, amount0: nat)
      returns (amount: nat)
      requires Valid() && maxSize <= pixels.Length0 && maxSize <= pixels.Length1
      requires image != pixels && image.Length0 == maxSize && image.Length1 == maxSize
      requires di <= step && dj <= step && stopI == maxSize - (step - di) && stopJ == maxSize - (step - dj)
      requires di <= i < stopI && Reaches(di, i, step) && i + step <= maxSize
      requires HalfPainted(pixels, image, di, stopI, dj, stopJ, step, i, 0)
      modifies image
      ensures amount + GridRed(pixels, i + step, stopI, dj, stopJ, step)
        == amount0 + old(GridRed(pixels, i, stopI, dj, stopJ, step))
      ensures HalfPainted(pixels, image, di, stopI, dj, stopJ, step, i + step, 0)
    {
      GridFits();
      RowStart(pixels, image, di, stopI, dj, stopJ, step, i);
      ghost var rest := GridRed(pixels, i + step, stopI, dj, stopJ, step);
      assert GridRed(pixels, i, stopI, dj, stopJ, step) == RowRed(pixels, i, dj, stopJ, step) + rest;
      amount := amount0;
      var area: nat := step * step;
      ghost var rowTotal := RowRed(pixels, i, dj, stopJ, step);
      var j := dj;
      while j < stopJ
        invariant dj <= j && Reaches(dj, j, step) && image.Length0 == maxSize && image.Length1 == maxSize
        invariant amount + RowRed(pixels, i, j, stopJ, step) == amount0 + rowTotal
        invariant HalfPainted(pixels, image, di, stopI, dj, stopJ, step, i, j)
        decreases stopJ - j
      {
        BlockInside(dj, j, maxSize, step);
        ReachesNext(dj, j, step);
        assert RowRed(pixels, i, j, stopJ, step)
          == (if MixedBlock(pixels, i, j, step) then area else 0) + RowRed(pixels, i, j + step, stopJ, step);
        var color := RecolorBlock(image, di, stopI, dj, stopJ, i, j);
        if color == PixelScans.Red {
          amount := amount + area;
        }
        j := j + step;
      }
      RowEnd(pixels, image, di, stopI, dj, stopJ, step, i, j);
    }

    /** One block of `highlight_half_pixels`: its colour set, the colour
        that set gives, and the block painted in it. */
    method RecolorBlock(image: array2<Color>, di: nat, stopI: int, dj: nat, stopJ: int, i: int, j: int)
      returns (color: Color)
      requires Valid() && maxSize <= pixels.Length0 && maxSize <= pixels.Length1
      requires image != pixels && image.Length0 == maxSize && image.Length1 == maxSize
      requires stopI <= maxSize && stopJ <= maxSize && step >= 1
      requires Reaches(di, i, step) && Reaches(dj, j, step) && i < stopI && j < stopJ
      requires 0 <= i && i + step <= maxSize && 0 <= j && j + step <= maxSize
      requires HalfPainted(pixels, image, di, stopI, dj, stopJ, step, i, j)
      modifies image
      ensures color == PixelScans.Red <==> MixedBlock(pixels, i, j, step)
      ensures RowRed(pixels, i, j + step, stopJ, step) == old(RowRed(pixels, i, j + step, stopJ, step))
      ensures HalfPainted(pixels, image, di, stopI, dj, stopJ, step, i, j + step)
    {
      var colorSet := GetColorSet(i, j, pixels, step);
      color := GetColorFromSet(colorSet);
      ColorSetSize(pixels, i, j, step, colorSet);
      RecolorPixels(i, j, image, color, step);
      forall x, y | i <= x < i + step && j <= y < j + step
        ensures HalfPixelHighlight(pixels, di, stopI, dj, stopJ, step, x, y) == color
      {
        HighlightInBlock(pixels, di, stopI, dj, stopJ, step, i, j, x, y);
      }
    }

    /** The image side is a whole number of blocks. */
    lemma GridFits()
      requires Valid()
      ensures step >= 1 && maxSize >= step && Multiple(maxSize, step)
    {
      if step == NormalStep {
        MultipleOf(96, NormalStep);
      } else {
        MultipleOf(80, EggStep);
      }
    }

    /** `handle_sprite_transparency`. */
    method HandleSpriteTransparency(analysis: Analysis)
      requires Valid()
      requires analysis.sizeIssue || (pixels.Length0 == maxSize && pixels.Length1 == maxSize)
      modifies analysis`severity, analysis`transparencyIssue, analysis`transparencyImage, analysis.issues
      ensures !old(analysis.sizeIssue) ==>
        var (v, keep) := TransparencyVerdict(TransparencyAmount(pixels, maxSize),
                                             LegacyUtils.IsIntentionalTransparency(analysis.message.content),
                                             old(analysis.severity));
        analysis.severity == v.severity
        && analysis.issues.issueList == old(analysis.issues.issueList) + v.findings
        && analysis.transparencyIssue == (old(analysis.transparencyIssue) || keep)
        && (keep ==> analysis.transparencyImage.Some? && fresh(analysis.transparencyImage.value)
                     && TransparencyImage(pixels, maxSize, analysis.transparencyImage.value))
        && (!keep ==> analysis.transparencyImage == old(analysis.transparencyImage))
      ensures old(analysis.sizeIssue) ==>
        analysis.severity == old(analysis.severity)
        && analysis.issues.issueList == old(analysis.issues.issueList)
        && analysis.transparencyIssue == old(analysis.transparencyIssue)
        && analysis.transparencyImage == old(analysis.transparencyImage)
      ensures Grew(old(analysis.severity), old(analysis.issues.issueList), analysis.severity, analysis.issues.issueList)
    {
      if analysis.sizeIssue {
        return;
      }
      var transparencyAmount, image := HighlightTransparency();
      if transparencyAmount.Raised? {
        return;
      }
      if transparencyAmount.value == 0 {
        return;
      }
      if LegacyUtils.IsIntentionalTransparency(analysis.message.content) {
        analysis.issues.Add(I.IntentionalTransparency);
        return;
      }
      analysis.transparencyIssue := true;
      analysis.transparencyImage := Some(image);
      if analysis.severity != Refused {
        analysis.severity := Controversial;
      }
      analysis.issues.Add(I.SemiTransparency);
    }

    /** `handle_sprite_half_pixels`: the strict scan first; only when it
        finds half pixels, the shifted scan decides between a refusal (with
        the strict scan's highlight) and a misplaced grid. */
    method HandleSpriteHalfPixels(analysis: Analysis)
      requires Valid()
      requires analysis.sizeIssue || (pixels.Length0 == maxSize && pixels.Length1 == maxSize)
      modifies analysis`severity, analysis`halfPixelsIssue, analysis`halfPixelsImage, analysis.issues
      ensures !old(analysis.sizeIssue) ==>
        var (v, keep) := old(HalfPixelVerdict(HalfPixelAmount(true), HalfPixelAmount(false), analysis.severity));
        analysis.severity == v.severity
        && analysis.issues.issueList == old(analysis.issues.issueList) + v.findings
        && analysis.halfPixelsIssue == (old(analysis.halfPixelsIssue) || keep)
        && (keep ==>
              analysis.halfPixelsImage.Some? && fresh(analysis.halfPixelsImage.value)
              && HalfPixelImage(analysis.halfPixelsImage.value, true))
        && (!keep ==> analysis.halfPixelsImage == old(analysis.halfPixelsImage))
      ensures old(analysis.sizeIssue) ==>
        analysis.severity == old(analysis.severity)
        && analysis.issues.issueList == old(analysis.issues.issueList)
        && analysis.halfPixelsIssue == old(analysis.halfPixelsIssue)
        && analysis.halfPixelsImage == old(analysis.halfPixelsImage)
      ensures Grew(old(analysis.severity), old(analysis.issues.issueList), analysis.severity, analysis.issues.issueList)
    {
      if analysis.sizeIssue {
        return;
      }
      ghost var verdict := HalfPixelVerdict(HalfPixelAmount(true), HalfPixelAmount(false), analysis.severity);
      var halfPixelsAmount, image := HighlightHalfPixels(true);
      if halfPixelsAmount == 0 {
        return;
      }
      var laxHalfPixelsAmount, _ := HighlightHalfPixels(false);
      assert verdict == HalfPixelVerdict(halfPixelsAmount, laxHalfPixelsAmount, analysis.severity);
      if laxHalfPixelsAmount > 0 {
        analysis.halfPixelsIssue := true;
        analysis.halfPixelsImage := Some(image);
        analysis.severity := Refused;
        analysis.issues.Add(I.HalfPixels);
      } else {
        analysis.issues.Add(I.MisplacedGrid);
      }
    }

    /** One pixel of `highlight_transparency`: its alpha, which only the
        first pixel can fail to have, then its highlight, the count of
        half-transparent pixels and the sighting of a clear one. */
    method ScanPixel(image: array2<Color>, i: nat, j: nat, amount0: nat, seen0: bool)
      returns (failure: Option<string>, amount: nat, seen: bool)
      requires Valid() && maxSize <= pixels.Length0 && maxSize <= pixels.Length1
      requires image != pixels && image.Length0 == maxSize && image.Length1 == maxSize
      requires i < maxSize && j < maxSize && !pixels[0, 0].Indexed? && (i > 0 || j > 0 ==> FourChannels(pixels[0, 0]))
      requires PaintedBefore(pixels, image, i, j)
      modifies image
      ensures failure.Some? ==> i == 0 && j == 0 && !FourChannels(pixels[0, 0]) && failure.value == TransparencyException
      ensures failure.None? ==>
        FourChannels(pixels[0, 0])
        && amount == amount0 + (if IsHalfTransparent(AlphaOf(pixels[i, j])) then 1 else 0)
        && seen == (seen0 || AlphaOf(pixels[i, j]) == 0)
        && PaintedBefore(pixels, image, i, j + 1)
    {
      amount, seen := amount0, seen0;
      var color := pixels[i, j];
      SameShapeAt(i, j);
      var alpha := GetAlpha(color);
      if alpha.Raised? {
        assert i == 0 && j == 0;
        return Some(alpha.exception), amount, seen;
      }
      var highlight := PixelScans.White;
      if IsHalfTransparent(alpha.value) {
        highlight := PixelScans.Pink;
        amount := amount + 1;
      } else if !IsTransparent(alpha.value) {
        highlight := PixelScans.Black;
      } else {
        seen := true;
      }
      PaintNext(pixels, image, i, j, highlight);
      failure := None;
    }

    /** The last two stages of `handle_valid_sprite`: the transparency scan
        and the half-pixel scan, both skipped after a wrong size. */
    method HandleImageScans(analysis: Analysis)
      requires Valid()
      requires analysis.sizeIssue || (pixels.Length0 == maxSize && pixels.Length1 == maxSize)
      modifies analysis`severity, analysis`transparencyIssue, analysis`transparencyImage, analysis.issues
      modifies analysis`halfPixelsIssue, analysis`halfPixelsImage
      ensures Grew(old(analysis.severity), old(analysis.issues.issueList), analysis.severity, analysis.issues.issueList)
      ensures old(analysis.sizeIssue) ==>
        analysis.severity == old(analysis.severity)
        && analysis.issues.issueList == old(analysis.issues.issueList)
        && analysis.transparencyIssue == old(analysis.transparencyIssue)
        && analysis.transparencyImage == old(analysis.transparencyImage)
        && analysis.halfPixelsIssue == old(analysis.halfPixelsIssue)
        && analysis.halfPixelsImage == old(analysis.halfPixelsImage)
    {
      ghost var sev0, list0 := analysis.severity, analysis.issues.issueList;
      HandleSpriteTransparency(analysis);
      ghost var sev1, list1 := analysis.severity, analysis.issues.issueList;
      HandleSpriteHalfPixels(analysis);
      GrewTransitive(sev0, list0, sev1, list1, analysis.severity, analysis.issues.issueList);
    }
  }

  /** `handle_valid_sprite`: the stages in their order. The verdict only
      rises and findings are only appended; a non-PNG, an overflowing palette
      and a wrong size each refuse the sprite with their finding, and a wrong
      size keeps both scans from running. */
  method HandleValidSprite(analysis: Analysis, pixels: array2<Color>, format: Option<string>, software: string,
                           colors: Option<seq<ColorCount>>, perceptual: PerceptualDistance)
    requires analysis.attachmentUrl.Some?
    requires UniformPixels(pixels) && TupleColors(colors)
    modifies analysis`severity, analysis`sizeIssue, analysis`aiSuspicion, analysis.issues
    modifies analysis`transparencyIssue, analysis`transparencyImage, analysis`halfPixelsIssue, analysis`halfPixelsImage
    ensures Enums.Raised(old(analysis.severity), analysis.severity)
    ensures old(analysis.issues.issueList) <= analysis.issues.issueList
    ensures format != Some("PNG") ==>
      analysis.severity == Refused && I.NotPng(format) in analysis.issues.issueList
    ensures colors.None? ==>
      analysis.severity == Refused && I.ColorOverExcess(AllColorLimit) in analysis.issues.issueList
    ensures var size := if old(analysis.issues.HasIssue(I.KEggSprite)) then EggSize else MaxSize;
      (pixels.Length0 != size || pixels.Length1 != size) ==>
        analysis.sizeIssue && analysis.severity == Refused
        && I.InvalidSize(pixels.Length0, pixels.Length1) in analysis.issues.issueList
        && analysis.transparencyIssue == old(analysis.transparencyIssue)
        && analysis.transparencyImage == old(analysis.transparencyImage)
        && analysis.halfPixelsIssue == old(analysis.halfPixelsIssue)
        && analysis.halfPixelsImage == old(analysis.halfPixelsImage)
  {
    ghost var size := if analysis.issues.HasIssue(I.KEggSprite) then EggSize else MaxSize;
    var context := new SpriteContext(analysis, pixels, format, software, colors, perceptual);
    assert context.maxSize == size;
    ghost var sev0, list0 := analysis.severity, analysis.issues.issueList;
    HandleFormatAndSize(context, analysis);
    ghost var sev2, list2 := analysis.severity, analysis.issues.issueList;
    HandleColorsAndScans(context, analysis);
    GrewTransitive(sev0, list0, sev2, list2, analysis.severity, analysis.issues.issueList);
    GrewKeeps(sev2, list2, analysis.severity, analysis.issues.issueList, I.NotPng(format));
    GrewKeeps(sev2, list2, analysis.severity, analysis.issues.issueList, I.InvalidSize(pixels.Length0, pixels.Length1));
  }

  /** The first stages of `handle_valid_sprite`: the format, then the size. */
  method HandleFormatAndSize(context: SpriteContext, analysis: Analysis)
    modifies analysis`severity, analysis`sizeIssue, analysis`aiSuspicion, analysis.issues
    ensures Grew(old(analysis.severity), old(analysis.issues.issueList), analysis.severity, analysis.issues.issueList)
    ensures context.format != Some("PNG") ==>
      analysis.severity == Refused && I.NotPng(context.format) in analysis.issues.issueList
    ensures (context.pixels.Length0 != context.maxSize || context.pixels.Length1 != context.maxSize) ==>
      analysis.sizeIssue && analysis.severity == Refused
      && I.InvalidSize(context.pixels.Length0, context.pixels.Length1) in analysis.issues.issueList
    ensures analysis.sizeIssue
      || (context.pixels.Length0 == context.maxSize && context.pixels.Length1 == context.maxSize)
  {
    ghost var sev0, list0 := analysis.severity, analysis.issues.issueList;
    context.HandleSpriteFormat(analysis);
    ghost var sev1, list1 := analysis.severity, analysis.issues.issueList;
    context.HandleSpriteSize(analysis);
    GrewTransitive(sev0, list0, sev1, list1, analysis.severity, analysis.issues.issueList);
    GrewKeeps(sev1, list1, analysis.severity, analysis.issues.issueList, I.NotPng(context.format));
  }

  /** The later stages of `handle_valid_sprite`: the colours, then the two
      scans, which a size finding keeps from running. */
  method HandleColorsAndScans(context: SpriteContext, analysis: Analysis)
    requires context.Valid()
    requires analysis.sizeIssue
      || (context.pixels.Length0 == context.maxSize && context.pixels.Length1 == context.maxSize)
    modifies context`usefulColors, context`usefulAmount, context`uselessAmount, context`similarColorDict
    modifies analysis`severity, analysis`aiSuspicion, analysis.issues
    modifies analysis`transparencyIssue, analysis`transparencyImage, analysis`halfPixelsIssue, analysis`halfPixelsImage
    ensures Grew(old(analysis.severity), old(analysis.issues.issueList), analysis.severity, analysis.issues.issueList)
    ensures context.colors.None? ==>
      analysis.severity == Refused && I.ColorOverExcess(AllColorLimit) in analysis.issues.issueList
    ensures old(analysis.sizeIssue) ==>
      analysis.transparencyIssue == old(analysis.transparencyIssue)
      && analysis.transparencyImage == old(analysis.transparencyImage)
      && analysis.halfPixelsIssue == old(analysis.halfPixelsIssue)
      && analysis.halfPixelsImage == old(analysis.halfPixelsImage)
  {
    context.HandleSpriteColors(analysis);
    ghost var sev3, list3 := analysis.severity, analysis.issues.issueList;
    context.HandleImageScans(analysis);
    GrewKeeps(sev3, list3, analysis.severity, analysis.issues.issueList, I.ColorOverExcess(AllColorLimit));
  }

  /** The module's entry point: the sprite is checked only while nothing has
      been refused or made controversial yet, or when the analysis answers a
      reply; otherwise the record is left as it is. */
  method RunSpriteChecks(analysis: Analysis, pixels: array2<Color>, format: Option<string>, software: string,
                         colors: Option<seq<ColorCount>>, perceptual: PerceptualDistance)
    requires analysis.severity == Accepted || analysis.analysisType.IsReply() ==> analysis.attachmentUrl.Some?
    requires UniformPixels(pixels) && TupleColors(colors)
    modifies analysis`severity, analysis`sizeIssue, analysis`aiSuspicion, analysis.issues
    modifies analysis`transparencyIssue, analysis`transparencyImage, analysis`halfPixelsIssue, analysis`halfPixelsImage
    ensures Grew(old(analysis.severity), old(analysis.issues.issueList), analysis.severity, analysis.issues.issueList)
    ensures !(old(analysis.severity) == Accepted || analysis.analysisType.IsReply()) ==>
      analysis.severity == old(analysis.severity)
      && analysis.issues.issueList == old(analysis.issues.issueList)
      && analysis.aiSuspicion == old(analysis.aiSuspicion)
      && analysis.sizeIssue == old(analysis.sizeIssue)
      && analysis.transparencyIssue == old(analysis.transparencyIssue)
      && analysis.halfPixelsIssue == old(analysis.halfPixelsIssue)
  {
    if analysis.severity == Accepted || analysis.analysisType.IsReply() {
      HandleValidSprite(analysis, pixels, format, software, colors, perceptual);
    }
  }
}
