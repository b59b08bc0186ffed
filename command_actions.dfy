/** The `/similar` slash command and the channel lookup used to log
    commands: the palette pipeline on a whole image, the list of similar
    pairs written as hex codes, its truncation to twenty pairs and the
    reply embed. */
module CommandActions {
  import opened Wrappers
  import opened Palette
  import SA = SpriteAnalysis
  import Text

  const SimilarTitle := "**Similar pairs of colors:**"
  const ErrorTitle := "**An error has occurred processing your command:**"
  const ErrorAddendum := "\n\nIf you believe this is incorrect, notify the error either to Doodledoo or here:\nhttps://github.com/Doodleboo/bot-fusion-analyzer/issues"
  const NoAttachment := "No suitable attachment was found."
  const WrongAttachment := "Couldn't parse the attachment as an image."
  const NoSimPairs := "No similar pairs have been found."
  const ColorCountError := "The image had too many colors."
  const CulledPairsFooter := "This list does not include all pairs, as there were too many."
  const AllColorLimit := 256
  const PairListLimit := 20

  /** A reply embed: title, description and optional footer text. */
  datatype Embed = Embed(title: string, description: string, footer: Option<string>)

  /** `error_embed`: the message followed by the addendum. */
  function ErrorEmbed(message: string): Embed {
    Embed(ErrorTitle, message + ErrorAddendum, None)
  }

  // ---------------------------------------------------------------------
  // get_sorted_color_dict

  /** The image was converted to RGBA: every colour is four channel bytes. */
  predicate RgbaBytes(entries: seq<ColorCount>) {
    forall k :: 0 <= k < |entries| ==>
      entries[k].color.Channels? && |entries[k].color.values| == 4
      && forall c :: 0 <= c < 4 ==> 0 <= entries[k].color.values[c] <= 255
  }

  /** The useful entries of an RGBA palette: the filter cannot raise on it. */
  function UsefulOf(entries: seq<ColorCount>): (r: seq<ColorCount>)
    requires RgbaBytes(entries)
    ensures RgbaBytes(r) && SA.ReadyColors(r)
    ensures forall e :: e in r <==> e in entries && Useful(e)
  {
    UsefulColorsSpec(entries);
    var r := UsefulColors(entries).value;
    assert RgbaBytes(r) by {
      forall k | 0 <= k < |r|
        ensures r[k].color.Channels? && |r[k].color.values| == 4
        ensures forall c :: 0 <= c < 4 ==> 0 <= r[k].color.values[c] <= 255
      {
        assert r[k] in entries;
      }
    }
    r
  }

  /** What `get_sorted_color_dict` returns: `ValueError` when the palette
      read gave nothing (more than 256 colours, or an empty list), else the
      similar pairs of the useful colours sorted by channel difference. */
  function SortedColorDict(allColors: Option<seq<ColorCount>>, perceptual: PerceptualDistance): Result<seq<Entry>>
    requires allColors.Some? ==> RgbaBytes(allColors.value)
  {
    if allColors.None? || |allColors.value| == 0 then Raised("ValueError")
    else Ok(SA.SimilarDict(perceptual, UsefulOf(allColors.value)))
  }

  /** `get_sorted_color_dict`, step by step through the palette methods. */
  method GetSortedColorDict(allColors: Option<seq<ColorCount>>, perceptual: PerceptualDistance)
    returns (r: Result<seq<Entry>>)
    requires allColors.Some? ==> RgbaBytes(allColors.value)
    ensures r == SortedColorDict(allColors, perceptual)
  {
    if allColors.None? || |allColors.value| == 0 {
      return Raised("ValueError");
    }
    var usefulColors := RemoveUselessColors(allColors.value);
    UsefulColorsSpec(allColors.value);
    assert usefulColors == Ok(UsefulOf(allColors.value));
    var rgbColorList := GetRgbColorList(usefulColors.value);
    assert rgbColorList == SA.RgbList(usefulColors.value);
    var similarColorDict := GetSimilarColorDict(perceptual, rgbColorList);
    r := Ok(SortColorDict(similarColorDict));
  }

  /** Every colour of the RGB list of an RGBA palette is three bytes. */
  predicate RgbBytes(c: Rgb) {
    |c| == 3 && forall i :: 0 <= i < 3 ==> 0 <= c[i] <= 255
  }

  /** The result raises `ValueError` exactly when the palette read gave
      nothing; otherwise it holds the same items as the pair dictionary of
      the useful colours, ordered by channel difference. */
  lemma SortedColorDictSpec(allColors: Option<seq<ColorCount>>, perceptual: PerceptualDistance)
    requires allColors.Some? ==> RgbaBytes(allColors.value)
    ensures var r := SortedColorDict(allColors, perceptual);
      (r.Raised? <==> allColors.None? || |allColors.value| == 0)
      && (r.Raised? ==> r.exception == "ValueError")
      && (r.Ok? ==>
        var useful := UsefulOf(allColors.value);
        multiset(r.value) == multiset(PairGrid(perceptual, SA.RgbList(useful), |useful|))
        && SortedByDifference(r.value))
  {
    if allColors.Some? && |allColors.value| > 0 {
      var useful := UsefulOf(allColors.value);
      SortColorDictSpec(PairGrid(perceptual, SA.RgbList(useful), |useful|));
    }
  }

  /** Every item of the result pairs two different byte colours of the
      image whose distances pass the similarity test. */
  lemma SortedColorDictKeys(allColors: seq<ColorCount>, perceptual: PerceptualDistance, x: Entry)
    requires RgbaBytes(allColors) && |allColors| > 0
    requires x in SortedColorDict(Some(allColors), perceptual).value
    ensures IsSimilar(x.delta)
    ensures exists a, b :: a != b && x.key == {a, b} && RgbBytes(a) && RgbBytes(b)
  {
    var useful := UsefulOf(allColors);
    var list := SA.RgbList(useful);
    var grid := PairGrid(perceptual, list, |useful|);
    SortColorDictSpec(grid);
    PairGridValid(perceptual, list, |useful|);
    assert x in multiset(grid);
    var k :| 0 <= k < |grid| && grid[k] == x;
    var i, j :| ItemOf(perceptual, list, grid[k], i, j);
    RgbListBytes(useful, list[i]);
    RgbListBytes(useful, list[j]);
  }

  lemma RgbListBytes(useful: seq<ColorCount>, c: Rgb)
    requires RgbaBytes(useful) && SA.ReadyColors(useful)
    requires c in SA.RgbList(useful)
    ensures RgbBytes(c)
  {
    var k :| 0 <= k < |useful| && SA.RgbList(useful)[k] == c;
    assert c == RgbOf(useful[k].color);
  }

  // ---------------------------------------------------------------------
  // get_rgb_pair

  /** `list(color_pair)[0]` and `[1]`: the iteration order of a frozen set
      depends on hashing, so the model takes it as a parameter that lists
      any two-element set as its two elements in some order. */
  type Listing = set<Rgb> -> (Rgb, Rgb)

  ghost predicate ListsPairs(listing: Listing) {
    forall key: set<Rgb> :: |key| == 2 ==>
      listing(key).0 in key && listing(key).1 in key && listing(key).0 != listing(key).1
  }

  /** A lower-case hex digit. */
  predicate IsHexDigit(ch: char) {
    '0' <= ch <= '9' || 'a' <= ch <= 'f'
  }

  /** The digit of a value below sixteen. */
  function HexDigit(v: int): (ch: char)
    requires 0 <= v < 16
    ensures IsHexDigit(ch)
  {
    if v < 10 then ('0' as int + v) as char else ('a' as int + v - 10) as char
  }

  /** The value of a hex digit: the inverse of `HexDigit`. */
  function DigitValue(ch: char): (r: int)
    requires IsHexDigit(ch)
    ensures 0 <= r < 16 && HexDigit(r) == ch
  {
    if ch <= '9' then ch as int - '0' as int else ch as int - 'a' as int + 10
  }

  /** Two lower-case hex digits of a byte. */
  function HexByte(v: int): (r: string)
    requires 0 <= v <= 255
    ensures |r| == 2 && IsHexDigit(r[0]) && IsHexDigit(r[1])
    ensures DigitValue(r[0]) * 16 + DigitValue(r[1]) == v
  {
    [HexDigit(v / 16), HexDigit(v % 16)]
  }

  /** `get_rgb_hex` of an upscaled sRGB colour: `#` and six hex digits. */
  function RgbHex(c: Rgb): (r: string)
    requires RgbBytes(c)
    ensures |r| == 7 && r[0] == '#' && '\n' !in r
  {
    "#" + HexByte(c[0]) + HexByte(c[1]) + HexByte(c[2])
  }

  /** The value of the two digits at `i`. */
  function ByteAt(s: string, i: nat): int
    requires i + 1 < |s| && IsHexDigit(s[i]) && IsHexDigit(s[i + 1])
  {
    DigitValue(s[i]) * 16 + DigitValue(s[i + 1])
  }

  /** Reads a `#rrggbb` code back into its three channels. */
  function ParseRgbHex(s: string): Option<Rgb> {
    if |s| == 7 && s[0] == '#' && forall i :: 1 <= i < 7 ==> IsHexDigit(s[i]) then
      Some([ByteAt(s, 1), ByteAt(s, 3), ByteAt(s, 5)])
    else None
  }

  /** The hex code of a byte colour reads back as that colour: the text
      names each colour exactly. */
  lemma RgbHexRoundTrip(c: Rgb)
    requires RgbBytes(c)
    ensures ParseRgbHex(RgbHex(c)) == Some(c)
  {
    var s := RgbHex(c);
    var h0, h1, h2 := HexByte(c[0]), HexByte(c[1]), HexByte(c[2]);
    assert s == ['#', h0[0], h0[1], h1[0], h1[1], h2[0], h2[1]];
    assert [ByteAt(s, 1), ByteAt(s, 3), ByteAt(s, 5)] == c;
  }

  /** `get_rgb_pair`: the hex codes of the pair's two colours, in the order
      the set lists them. */
  function GetRgbPair(first: Rgb, second: Rgb): (r: (string, string))
    requires RgbBytes(first) && RgbBytes(second)
    ensures ParseRgbHex(r.0) == Some(first) && ParseRgbHex(r.1) == Some(second)
  {
    RgbHexRoundTrip(first);
    RgbHexRoundTrip(second);
    (RgbHex(first), RgbHex(second))
  }

  // ---------------------------------------------------------------------
  // The pair list of similar_action

  /** Every key of the dictionary is listed as two byte colours. */
  ghost predicate Displayable(sorted: seq<Entry>, listing: Listing) {
    forall k :: 0 <= k < |sorted| ==>
      RgbBytes(listing(sorted[k].key).0) && RgbBytes(listing(sorted[k].key).1)
  }

  /** The hex pair of every item, in the dictionary's order. */
  function PairsOf(sorted: seq<Entry>, listing: Listing): (r: seq<(string, string)>)
    requires Displayable(sorted, listing)
    ensures |r| == |sorted|
  {
    seq(|sorted|, k requires 0 <= k < |sorted| =>
      GetRgbPair(listing(sorted[k].key).0, listing(sorted[k].key).1))
  }

  /** The loop of `similar_action` that turns every item into its pair of
      hex codes. */
  method BuildPairList(sorted: seq<Entry>, listing: Listing) returns (pairList: seq<(string, string)>)
    requires Displayable(sorted, listing)
    ensures pairList == PairsOf(sorted, listing)
  {
    pairList := [];
    var k := 0;
    while k < |sorted|
      invariant 0 <= k <= |sorted|
      invariant |pairList| == k
      invariant forall m :: 0 <= m < k ==> pairList[m] == PairsOf(sorted, listing)[m]
    {
      var colorPair := listing(sorted[k].key);
      pairList := pairList + [GetRgbPair(colorPair.0, colorPair.1)];
      k := k + 1;
    }
  }

  /** The hex pairs name the colours of the item's key, in either order. */
  lemma PairsOfSpec(sorted: seq<Entry>, listing: Listing, k: nat)
    requires Displayable(sorted, listing) && ListsPairs(listing)
    requires k < |sorted| && |sorted[k].key| == 2
    ensures var p := PairsOf(sorted, listing)[k];
      ParseRgbHex(p.0).Some? && ParseRgbHex(p.1).Some?
      && {ParseRgbHex(p.0).value, ParseRgbHex(p.1).value} == sorted[k].key
  {
    var key := sorted[k].key;
    var a, b := listing(key).0, listing(key).1;
    assert a in key && b in key && a != b;
    assert {a, b} <= key;
    assert |{a, b}| == 2;
    SubsetSameSize({a, b}, key);
  }

  lemma SubsetSameSize<T>(s: set<T>, t: set<T>)
    requires s <= t && |s| == |t|
    ensures s == t
  {
    if s != t {
      var x :| x in t && x !in s;
      assert s <= t - {x};
      assert |t - {x}| == |t| - 1;
      Text.SubsetSize(s, t - {x});
    }
  }

  /** The keys of the sorted dictionary of an RGBA image are displayable
      for any listing of two-element sets. */
  lemma SortedDisplayable(allColors: seq<ColorCount>, perceptual: PerceptualDistance, listing: Listing)
    requires RgbaBytes(allColors) && |allColors| > 0 && ListsPairs(listing)
    ensures Displayable(SortedColorDict(Some(allColors), perceptual).value, listing)
  {
    var sorted := SortedColorDict(Some(allColors), perceptual).value;
    forall k | 0 <= k < |sorted|
      ensures RgbBytes(listing(sorted[k].key).0) && RgbBytes(listing(sorted[k].key).1)
    {
      SortedColorDictKeys(allColors, perceptual, sorted[k]);
      var a, b :| a != b && sorted[k].key == {a, b} && RgbBytes(a) && RgbBytes(b);
      assert |sorted[k].key| == 2;
    }
  }

  // ---------------------------------------------------------------------
  // format_list

  /** One line of the list. */
  function Line(pair: (string, string)): string {
    "- **" + pair.0 + "** and **" + pair.1 + "**\n"
  }

  /** The line of every pair, in order. */
  function Lines(pairs: seq<(string, string)>): (r: seq<string>)
    ensures |r| == |pairs|
  {
    seq(|pairs|, k requires 0 <= k < |pairs| => Line(pairs[k]))
  }

  /** What `format_list` returns. */
  function FormatListSpec(pairs: seq<(string, string)>): string {
    Text.Concat(Lines(pairs))
  }

  /** `format_list`. */
  method FormatList(pairList: seq<(string, string)>) returns (formattedList: string)
    ensures formattedList == FormatListSpec(pairList)
  {
    formattedList := "";
    var k := 0;
    while k < |pairList|
      invariant 0 <= k <= |pairList|
      invariant formattedList == Text.Concat(Lines(pairList[..k]))
    {
      var tempStr := "- **" + pairList[k].0 + "** and **" + pairList[k].1 + "**\n";
      assert Lines(pairList[..k + 1]) == Lines(pairList[..k]) + [tempStr];
      Text.ConcatAppend(Lines(pairList[..k]), [tempStr]);
      formattedList := formattedList + tempStr;
      k := k + 1;
    }
    assert pairList[..k] == pairList;
  }

  /** Pair `k` sits after the lines of the pairs before it and before the
      lines of the pairs after it. */
  lemma FormatListAt(pairs: seq<(string, string)>, k: nat)
    requires k < |pairs|
    ensures FormatListSpec(pairs) == FormatListSpec(pairs[..k]) + Line(pairs[k]) + FormatListSpec(pairs[k + 1..])
  {
    var lines := Lines(pairs);
    assert lines == Lines(pairs[..k]) + [Line(pairs[k])] + Lines(pairs[k + 1..]);
    Text.ConcatAppend(Lines(pairs[..k]) + [Line(pairs[k])], Lines(pairs[k + 1..]));
    Text.ConcatAppend(Lines(pairs[..k]), [Line(pairs[k])]);
    assert Text.Concat([Line(pairs[k])]) == Text.Concat([]) + Line(pairs[k]);
  }

  /** The number of line breaks in a text. */
  function NewlineCount(s: string): nat {
    multiset(s)['\n']
  }

  /** Pairs of hex codes. */
  predicate HexPairs(pairs: seq<(string, string)>) {
    forall k :: 0 <= k < |pairs| ==> '\n' !in pairs[k].0 && '\n' !in pairs[k].1
  }

  /** With newline-free codes, the text has exactly one line per pair. */
  lemma {:induction false} FormatListLines(pairs: seq<(string, string)>)
    requires HexPairs(pairs)
    ensures NewlineCount(FormatListSpec(pairs)) == |pairs|
    decreases |pairs|
  {
    if |pairs| > 0 {
      var init := pairs[..|pairs| - 1];
      var p := pairs[|pairs| - 1];
      FormatListLines(init);
      assert Lines(pairs)[..|pairs| - 1] == Lines(init);
      assert FormatListSpec(pairs) == FormatListSpec(init) + Line(p);
      assert multiset(p.0)['\n'] == 0 && multiset(p.1)['\n'] == 0;
      assert NewlineCount(Line(p)) == 1;
    }
  }

  // ---------------------------------------------------------------------
  // similar_action

  /** The reply to the pairs of a non-empty dictionary: the first twenty
      pairs, and the culled-pairs footer when there were more. */
  function PairsEmbed(pairs: seq<(string, string)>): Embed {
    var tooMany := |pairs| > PairListLimit;
    var shown := if tooMany then pairs[..PairListLimit] else pairs;
    Embed(SimilarTitle, FormatListSpec(shown), if tooMany then Some(CulledPairsFooter) else None)
  }

  /** `similar_action` after the log line. `hasAttachment` is whether an
      attachment was given; `decoded` is `None` when the download does not
      open as an image and otherwise what `getcolors(256)` returned for its
      RGBA conversion; `listing` is the iteration order of the pair sets. */
  method SimilarAction(hasAttachment: bool, decoded: Option<Option<seq<ColorCount>>>,
                       perceptual: PerceptualDistance, listing: Listing) returns (embed: Embed)
    requires decoded.Some? && decoded.value.Some? ==> RgbaBytes(decoded.value.value)
    requires ListsPairs(listing)
    ensures !hasAttachment ==> embed == ErrorEmbed(NoAttachment)
    ensures hasAttachment && decoded.None? ==> embed == ErrorEmbed(WrongAttachment)
    ensures hasAttachment && decoded.Some? ==>
      var r := SortedColorDict(decoded.value, perceptual);
      (r.Raised? ==> embed == ErrorEmbed(ColorCountError))
      && (r.Ok? && |r.value| == 0 ==> embed == Embed(SimilarTitle, NoSimPairs, None))
      && (r.Ok? && |r.value| > 0 ==>
        Displayable(r.value, listing) && embed == PairsEmbed(PairsOf(r.value, listing)))
  {
    if !hasAttachment {
      return ErrorEmbed(NoAttachment);
    }
    if decoded.None? {
      return ErrorEmbed(WrongAttachment);
    }
    var sortedColorDict := GetSortedColorDict(decoded.value, perceptual);
    if sortedColorDict.Raised? {
      return ErrorEmbed(ColorCountError);
    }
    if |sortedColorDict.value| == 0 {
      return Embed(SimilarTitle, NoSimPairs, None);
    }
    SortedDisplayable(decoded.value.value, perceptual, listing);
    var pairList := BuildPairList(sortedColorDict.value, listing);
    var tooManyPairs := |pairList| > PairListLimit;
    if tooManyPairs {
      pairList := pairList[0..PairListLimit];
    }
    var formattedList := FormatList(pairList);
    embed := Embed(SimilarTitle, formattedList, None);
    if tooManyPairs {
      embed := embed.(footer := Some(CulledPairsFooter));
    }
  }

  /** The hex pairs hold no line break. */
  lemma PairsOfHex(sorted: seq<Entry>, listing: Listing)
    requires Displayable(sorted, listing)
    ensures HexPairs(PairsOf(sorted, listing))
  {
    var pairs := PairsOf(sorted, listing);
    forall k | 0 <= k < |pairs|
      ensures '\n' !in pairs[k].0 && '\n' !in pairs[k].1
    {
      assert pairs[k] == GetRgbPair(listing(sorted[k].key).0, listing(sorted[k].key).1);
    }
  }

  /** The pairs reply lists the first `min(n, 20)` of the `n` pairs, one
      line each, and carries the culled-pairs footer exactly when some were
      cut. */
  lemma PairsEmbedSpec(pairs: seq<(string, string)>)
    requires HexPairs(pairs)
    ensures var embed := PairsEmbed(pairs);
      var shown := if |pairs| > PairListLimit then PairListLimit else |pairs|;
      embed.title == SimilarTitle
      && embed.description == FormatListSpec(pairs[..shown])
      && NewlineCount(embed.description) == shown
      && (embed.footer.Some? <==> |pairs| > PairListLimit)
      && (embed.footer.Some? ==> embed.footer.value == CulledPairsFooter)
  {
    var shown := if |pairs| > PairListLimit then PairListLimit else |pairs|;
    assert pairs[..shown] == if |pairs| > PairListLimit then pairs[..PairListLimit] else pairs;
    FormatListLines(pairs[..shown]);
  }

  // ---------------------------------------------------------------------
  // get_channel_name_from_interaction

  /** What the channel's `name` attribute holds. */
  datatype NameValue = Str(s: string) | NotStr

  /** The channel of an interaction as the lookup sees it: a direct
      message, a channel with a name attribute, or an access that raises
      (`SystemExit` or any other exception). */
  datatype ChannelAccess = DirectMessage | Named(name: NameValue) | Fails(systemExit: bool)

  /** `get_channel_name_from_interaction`: only `SystemExit` escapes; every
      other outcome is a name. */
  function GetChannelNameFromInteraction(c: ChannelAccess): (r: Result<string>)
    ensures r.Raised? <==> c == Fails(true)
    ensures r.Raised? ==> r.exception == "SystemExit"
    ensures c == DirectMessage ==> r == Ok("DIRECT MESSAGE")
    ensures c == Named(NotStr) ==> r == Ok("INVALID")
    ensures c == Fails(false) ==> r == Ok("UNKNOWN")
    ensures r.Ok? ==> r.value in {"DIRECT MESSAGE", "INVALID", "UNKNOWN"} || c == Named(Str(r.value))
  {
    match c
    case DirectMessage => Ok("DIRECT MESSAGE")
    case Named(Str(s)) => Ok(s)
    case Named(NotStr) => Ok("INVALID")
    case Fails(systemExit) => if systemExit then Raised("SystemExit") else Ok("UNKNOWN")
  }
}
