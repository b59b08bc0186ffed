/*
 * The older flat-layout helpers of bot/utils.py, which the sprite analysis
 * imports from. Most of them are the same text as their counterparts in
 * bot/misc/utils.py and bot/core/filename_analysis.py and are not defined a
 * second time here; what differs is modelled below: the dex limit (573
 * instead of 572), the (id, type) pair `get_fusion_id_from_filename`
 * returns, the empty result for an unknown type when scanning text, and the
 * intentional-transparency matcher.
 */
module LegacyUtils {
  import opened Wrappers
  import opened Text
  import opened Enums
  import DexIds
  import FilenameAnalysis

  /** `MAX_DEX_ID` of this file. */
  const LegacyMaxDexId := 573

  // ---------------------------------------------------------------------
  // Dex-range check
  // ---------------------------------------------------------------------

  /** `is_invalid_fusion_id`: some dot-separated part, read as a number,
      exceeds 573. */
  predicate IsInvalidFusionId(fusionId: string)
    requires DexIds.AllNumerals(Split(fusionId, '.'))
  {
    DexIds.AnyAbove(Split(fusionId, '.'), LegacyMaxDexId)
  }

  /** The two limits disagree exactly on ids whose largest part is 573: the
      legacy check lets them through, the current one rejects them. Every id
      the legacy check rejects, the current one rejects too. */
  lemma LimitsDisagreeOn573(fusionId: string)
    requires DexIds.AllNumerals(Split(fusionId, '.'))
    ensures IsInvalidFusionId(fusionId) ==> DexIds.IsInvalidFusionId(fusionId)
    ensures var parts := Split(fusionId, '.');
      (DexIds.IsInvalidFusionId(fusionId) && !IsInvalidFusionId(fusionId))
      <==> ((exists k :: 0 <= k < |parts| && ParseNat(parts[k]) == 573)
            && forall k :: 0 <= k < |parts| ==> ParseNat(parts[k]) <= 573)
  {
  }

  /** "573.1": accepted here, out of the dex in bot/misc/utils.py. */
  lemma Dex573Example()
    ensures DexIds.AllNumerals(Split("573.1", '.'))
    ensures !IsInvalidFusionId("573.1") && DexIds.IsInvalidFusionId("573.1")
  {
    assert "573.1" == "573" + ['.'] + "1";
    SplitCons("573", "1", '.');
    SplitWithoutSeparator("1", '.');
    assert Split("573.1", '.') == ["573", "1"];
    assert "573"[..2] == "57" && "57"[..1] == "5" && "5"[..0] == "";
    assert ParseNat("573") == 573;
    assert "1"[..0] == "";
    assert ParseNat("1") == 1;
  }

  // ---------------------------------------------------------------------
  // Filename to (id, type)
  // ---------------------------------------------------------------------

  /** The text `re.match` returns for a filename one of the anchored patterns
      accepted: all of it, except a final newline that `$` matched before. */
  function MatchText(filename: string): (r: string)
    ensures |r| <= |filename| && r == filename[..|r|]
  {
    if |filename| > 0 && filename[|filename| - 1] == '\n' then filename[..|filename| - 1]
    else filename
  }

  /** `get_fusion_id_from_filename`: the type of the first pattern that
      matches (fusion, custom base, triple, egg; each plain, then with
      "SPOILER_"), with the number pattern of that type searched in the
      matched text; `(None, unknown)` when none matches. */
  function GetFusionIdFromFilename(filename: string): (Option<string>, IdType) {
    if FilenameAnalysis.Matches(filename, IdType.Fusion) then
      (DexIds.GetCleanDexIds(MatchText(filename), IdType.Fusion), IdType.Fusion)
    else if FilenameAnalysis.Matches(filename, IdType.CustomBase) then
      (DexIds.GetCleanDexIds(MatchText(filename), IdType.CustomBase), IdType.CustomBase)
    else if FilenameAnalysis.Matches(filename, IdType.Triple) then
      (DexIds.GetCleanDexIds(MatchText(filename), IdType.Triple), IdType.Triple)
    else if FilenameAnalysis.Matches(filename, IdType.Egg) then
      (DexIds.GetCleanDexIds(MatchText(filename), IdType.Egg), IdType.Egg)
    else (None, IdType.Unknown)
  }

  /** The matched text of a built filename is the filename without its
      final newline. */
  lemma MatchTextOfBuild(n: FilenameAnalysis.SpriteName)
    requires FilenameAnalysis.WellFormed(n)
    ensures MatchText(FilenameAnalysis.BuildFilename(n)) == FilenameAnalysis.BuildFilename(n.(newline := false))
  {
    var s := FilenameAnalysis.BuildFilename(n);
    var m := n.(newline := false);
    var t := FilenameAnalysis.BuildFilename(m);
    BuildNewlineSplit(n);
    if n.newline {
      assert s == t + "\n";
      assert s[..|s| - 1] == t;
    }
  }

  /** A built filename is the one without a final newline, followed by the
      newline when there is one; that one ends in 'g'. */
  lemma BuildNewlineSplit(n: FilenameAnalysis.SpriteName)
    requires FilenameAnalysis.WellFormed(n)
    ensures var t := FilenameAnalysis.BuildFilename(n.(newline := false));
      FilenameAnalysis.BuildFilename(n) == t + FilenameAnalysis.NewlinePart(n)
      && |t| > 0 && t[|t| - 1] == 'g'
  {
    var m := n.(newline := false);
    var t := FilenameAnalysis.BuildFilename(m);
    assert FilenameAnalysis.Tail(n) == FilenameAnalysis.Tail(m) + FilenameAnalysis.NewlinePart(n);
    assert FilenameAnalysis.Tail(m)[|FilenameAnalysis.Tail(m)| - 1] == 'g';
    assert t[|t| - 1] == FilenameAnalysis.Tail(m)[|FilenameAnalysis.Tail(m)| - 1];
  }

  /** Reading a well-formed sprite filename gives its dex ids and its type. */
  lemma GetFusionIdFromFilenameOfBuild(n: FilenameAnalysis.SpriteName)
    requires FilenameAnalysis.WellFormed(n)
    ensures GetFusionIdFromFilename(FilenameAnalysis.BuildFilename(n)) == (Some(Join(n.ids, '.')), n.idType)
  {
    FilenameAnalysis.MatchesBuild(n, IdType.Fusion);
    FilenameAnalysis.MatchesBuild(n, IdType.CustomBase);
    FilenameAnalysis.MatchesBuild(n, IdType.Triple);
    FilenameAnalysis.MatchesBuild(n, IdType.Egg);
    MatchTextOfBuild(n);
    FilenameAnalysis.CleanIdsOfBuild(n.(newline := false));
  }

  /** The legacy reader and the `FusionFilename` reader agree on every
      filename: same type, same dex ids. */
  lemma LegacyAgreesWithFusionFilename(filename: string)
    ensures FilenameAnalysis.GetFusionFilename(filename).Ok?
    ensures GetFusionIdFromFilename(filename).1 == FilenameAnalysis.GetFusionFilename(filename).value.idType
    ensures GetFusionIdFromFilename(filename).0 == FilenameAnalysis.GetFusionFilename(filename).value.dexIds
  {
    FilenameAnalysis.GetFusionFilenameCases(filename);
    if n: FilenameAnalysis.SpriteName :| FilenameAnalysis.WellFormed(n) && FilenameAnalysis.BuildFilename(n) == filename {
      FilenameAnalysis.GetFusionFilenameOfBuild(n);
      GetFusionIdFromFilenameOfBuild(n);
    }
  }

  // ---------------------------------------------------------------------
  // Ids in free text
  // ---------------------------------------------------------------------

  /** `extract_fusion_ids_from_content`: for an unknown type nothing is
      scanned; otherwise the ids of the type's text pattern, in text order,
      as bot/misc/utils.py finds them. */
  method ExtractFusionIdsFromContent(content: string, idType: IdType) returns (idList: seq<string>)
    ensures idType.IsUnknown() ==> idList == []
    ensures !idType.IsUnknown() ==> idList == DexIds.ContentIds(content, idType.ComponentCount())
  {
    if idType.IsUnknown() {
      return [];
    }
    idList := DexIds.ExtractFusionIdsFromContent(content, idType);
  }

  // ---------------------------------------------------------------------
  // "intentional transparency"
  // ---------------------------------------------------------------------

  /** `\w`: letters, digits and the underscore. */
  predicate IsWordChar(c: char) {
    IsLower(c) || IsUpper(c) || IsDigit(c) || c == '_'
  }

  /** `\s` of a `str` pattern: the Unicode white space characters. */
  predicate IsSpace(c: char) {
    var u := c as int;
    (9 <= u <= 13) || (28 <= u <= 32) || u == 0x85 || u == 0xA0 || u == 0x1680
    || (0x2000 <= u <= 0x200A) || u == 0x2028 || u == 0x2029 || u == 0x202F
    || u == 0x205F || u == 0x3000
  }

  /** The lower-case word `w` at `i`, letters compared without case. */
  predicate WordAt(s: string, w: string, i: nat) {
    i + |w| <= |s| && forall k :: 0 <= k < |w| ==> ToLower(s[i + k]) == w[k]
  }

  /** `\b` before a word character at `i`. */
  predicate StartsWord(s: string, i: nat)
    requires i <= |s|
  {
    i == 0 || !IsWordChar(s[i - 1])
  }

  /** `\b` after a word character ending at `j`. */
  predicate EndsWord(s: string, j: nat)
    requires j <= |s|
  {
    j == |s| || !IsWordChar(s[j])
  }

  /** `\s+transparency\b` from `j`. */
  predicate SpacesThenTransparency(s: string, j: nat) {
    exists k :: j < k <= |s| && (forall m :: j <= m < k ==> IsSpace(s[m]))
      && WordAt(s, "transparency", k) && EndsWord(s, k + 12)
  }

  /** `\b(intentional|intended)\s+transparency\b` matched at `i`. */
  predicate TransparencyPhraseAt(s: string, i: nat)
    requires i <= |s|
  {
    StartsWord(s, i)
    && ((WordAt(s, "intentional", i) && SpacesThenTransparency(s, i + 11))
        || (WordAt(s, "intended", i) && SpacesThenTransparency(s, i + 8)))
  }

  /** `is_intentional_transparency`: false for empty content, otherwise
      whether the phrase occurs anywhere. */
  predicate IsIntentionalTransparency(content: string) {
    |content| > 0 && exists i :: 0 <= i <= |content| && TransparencyPhraseAt(content, i)
  }

  /** A phrase glued to a preceding word character does not count: the
      sentence holds no match when the only "inten" is preceded by one. */
  lemma GluedPhraseDoesNotCount(s: string, i: nat)
    requires 0 < i <= |s| && IsWordChar(s[i - 1])
    ensures !TransparencyPhraseAt(s, i)
  {
  }

  /** The phrase is found wherever it stands as words of its own: at the
      start or after a non-word character, and at the end or before one. */
  lemma PhraseFoundAt(s: string, i: nat)
    requires OccursAt(s, "intentional transparency", i)
    requires i == 0 || !IsWordChar(s[i - 1])
    requires i + 24 == |s| || !IsWordChar(s[i + 24])
    ensures IsIntentionalTransparency(s)
  {
    var p := "intentional transparency";
    forall k | 0 <= k < 11 ensures ToLower(s[i + k]) == "intentional"[k] {
      OccursAtChar(s, p, i, k);
      assert p[k] == "intentional"[k];
    }
    forall k | 0 <= k < 12 ensures ToLower(s[i + 12 + k]) == "transparency"[k] {
      OccursAtChar(s, p, i, 12 + k);
      assert p[12 + k] == "transparency"[k];
    }
    OccursAtChar(s, p, i, 11);
    assert SpacesThenTransparency(s, i + 11) by {
      assert IsSpace(s[i + 11]);
      assert WordAt(s, "transparency", i + 12);
      assert EndsWord(s, i + 24);
    }
    assert TransparencyPhraseAt(s, i) by {
      assert WordAt(s, "intentional", i);
    }
  }

  /** "Intended  transparency." is recognised, with mixed case and two spaces. */
  lemma IntendedTransparencyExample()
    ensures IsIntentionalTransparency("Intended  transparency.")
  {
    var s := "Intended  transparency.";
    assert WordAt(s, "intended", 0);
    assert WordAt(s, "transparency", 10);
    assert SpacesThenTransparency(s, 8);
    assert TransparencyPhraseAt(s, 0);
  }

  /** Both words of the phrase begin with "i": no other letter starts one. */
  lemma NoPhraseWithoutI(s: string, i: nat)
    requires i < |s| && ToLower(s[i]) != 'i'
    ensures !TransparencyPhraseAt(s, i)
  {
    assert !WordAt(s, "intentional", i) by { assert "intentional"[0] == 'i'; }
    assert !WordAt(s, "intended", i) by { assert "intended"[0] == 'i'; }
  }

  /** Both words continue with "n": "io" starts neither. */
  lemma NoPhraseAfterIO(s: string, i: nat)
    requires i + 1 < |s| && ToLower(s[i + 1]) == 'o'
    ensures !TransparencyPhraseAt(s, i)
  {
    assert !WordAt(s, "intentional", i) by { assert "intentional"[1] == 'n'; }
    assert !WordAt(s, "intended", i) by { assert "intended"[1] == 'n'; }
  }

  /** "unintentional transparency" is not recognised: the only candidate
      start is glued to "un", and every other position starts neither word. */
  lemma UnintentionalTransparencyExample()
    ensures !IsIntentionalTransparency("unintentional transparency")
  {
    var s := "unintentional transparency";
    forall i | 0 <= i < |s| && i != 2 && i != 8 ensures ToLower(s[i]) != 'i' {
    }
    assert ToLower(s[9]) == 'o';
    forall i | 0 <= i <= |s| ensures !TransparencyPhraseAt(s, i) {
      if i == 2 {
        GluedPhraseDoesNotCount(s, i);
      } else if i == 8 {
        NoPhraseAfterIO(s, i);
      } else if i < |s| {
        NoPhraseWithoutI(s, i);
      }
    }
  }
}
