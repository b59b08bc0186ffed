/** Filename and text reconciliation: the id read from the sprite's filename
    is compared with the ids written in parentheses in the message text,
    the outcome is written into the analysis as findings, and the analysis's
    fusion id is set when the two agree. The dex-name registry is a map
    handed in by the caller. */
module ContentAnalysis {
  import opened Wrappers
  import opened Text
  import opened Enums
  import opened Platform
  import I = Issues
  import opened DexIds
  import opened FilenameAnalysis
  import opened AnalysisRecord

  /** Dex number (as text) to display name. */
  type NameMap = map<string, string>

  /** `NAME_MAP.get(id)`. */
  function NameOf(names: NameMap, id: string): Option<string> {
    if id in names then Some(names[id]) else None
  }

  /** The ids a filename reading can hand to the dex check: the type's
      number of dot-separated dex numbers. */
  predicate ReadableIds(ff: FusionFilename) {
    ff.dexIds.Some? ==> DexIdText(ff.dexIds.value, ff.idType.ComponentCount())
  }

  // ---------------------------------------------------------------------
  // The dex check
  // ---------------------------------------------------------------------

  /** The finding `handle_dex_verification` adds for `fusionId`: the
      out-of-dex finding for a number beyond the dex; otherwise the named
      base or egg, the triple-fusion note, or the two names of a fusion. */
  function DexFindings(idType: IdType, fusionId: string, names: NameMap): seq<I.Issue>
    requires DexIdText(fusionId, idType.ComponentCount())
  {
    if IsInvalidFusionId(fusionId) then [I.OutOfDex(fusionId)]
    else if idType.IsCustomBase() || idType.IsEgg() then
      var name := NameOf(names, fusionId);
      [if idType.IsEgg() then I.EggSprite(name) else I.CustomBase(name)]
    else if idType.IsTripleFusion() then [I.TripleFusionSprite]
    else
      var parts := Split(fusionId, '.');
      [I.PokemonNames(NameOf(names, parts[0]), NameOf(names, parts[1]))]
  }

  /** The dex check adds exactly one finding. It is the out-of-dex finding
      exactly when some dot-separated number exceeds 572; otherwise its kind
      follows the id type, and a fusion's names are those of its head and
      body numbers. */
  lemma DexFindingsSpec(idType: IdType, fusionId: string, names: NameMap)
    requires DexIdText(fusionId, idType.ComponentCount())
    ensures var f := DexFindings(idType, fusionId, names);
      |f| == 1
    ensures var f := DexFindings(idType, fusionId, names);
      f[0] == I.OutOfDex(fusionId)
      <==> (exists k :: 0 <= k < |Split(fusionId, '.')| && ParseNat(Split(fusionId, '.')[k]) > MaxDexId)
    ensures var f := DexFindings(idType, fusionId, names);
      !IsInvalidFusionId(fusionId) ==>
        (f[0].CustomBase? <==> idType.IsCustomBase())
        && (f[0].EggSprite? <==> idType.IsEgg())
        && (f[0].TripleFusionSprite? <==> idType.IsTripleFusion())
        && (f[0].PokemonNames? <==> idType.IsFusion() || idType.IsUnknown())
    ensures var f := DexFindings(idType, fusionId, names);
      !IsInvalidFusionId(fusionId) && (idType.IsFusion() || idType.IsUnknown()) ==>
        |Split(fusionId, '.')| == 2
        && f[0] == I.PokemonNames(NameOf(names, Split(fusionId, '.')[0]), NameOf(names, Split(fusionId, '.')[1]))
  {
  }

  /** The dex check adds a single finding, never a mismatch. */
  lemma DexFindingsSingle(idType: IdType, fusionId: string, names: NameMap)
    requires DexIdText(fusionId, idType.ComponentCount())
    ensures |DexFindings(idType, fusionId, names)| == 1
    ensures !DexFindings(idType, fusionId, names)[0].DifferentSprite?
  {
  }

  /** `handle_pokemon_names`: the names of the head and the body number. */
  method HandlePokemonNames(analysis: Analysis, fusionId: string, names: NameMap)
    requires |Split(fusionId, '.')| == 2
    modifies analysis.issues
    ensures analysis.issues.issueList == old(analysis.issues.issueList)
      + [I.PokemonNames(NameOf(names, Split(fusionId, '.')[0]), NameOf(names, Split(fusionId, '.')[1]))]
  {
    var parts := Split(fusionId, '.');
    var head, body := parts[0], parts[1];
    var headName := NameOf(names, head);
    var bodyName := NameOf(names, body);
    analysis.issues.Add(I.PokemonNames(headName, bodyName));
  }

  /** `handle_pokemon_name`: the name of a custom base or of an egg. */
  method HandlePokemonName(analysis: Analysis, baseId: string, eggSprite: bool, names: NameMap)
    modifies analysis.issues
    ensures analysis.issues.issueList == old(analysis.issues.issueList)
      + [if eggSprite then I.EggSprite(NameOf(names, baseId)) else I.CustomBase(NameOf(names, baseId))]
  {
    var pokemonName := NameOf(names, baseId);
    if eggSprite {
      analysis.issues.Add(I.EggSprite(pokemonName));
    } else {
      analysis.issues.Add(I.CustomBase(pokemonName));
    }
  }

  /** `handle_dex_verification`, with the type of the analysis's filename. */
  method HandleDexVerification(analysis: Analysis, fusionId: string, names: NameMap)
    requires DexIdText(fusionId, analysis.fusionFilename.idType.ComponentCount())
    modifies analysis.issues
    ensures analysis.issues.issueList
      == old(analysis.issues.issueList) + DexFindings(analysis.fusionFilename.idType, fusionId, names)
  {
    var idType := analysis.fusionFilename.idType;
    if IsInvalidFusionId(fusionId) {
      analysis.issues.Add(I.OutOfDex(fusionId));
    } else if idType.IsCustomBase() || idType.IsEgg() {
      HandlePokemonName(analysis, fusionId, idType.IsEgg(), names);
    } else if idType.IsTripleFusion() {
      analysis.issues.Add(I.TripleFusionSprite);
    } else {
      HandlePokemonNames(analysis, fusionId, names);
    }
  }

  // ---------------------------------------------------------------------
  // What the reconciliation decides
  // ---------------------------------------------------------------------

  /** The findings the reconciliation adds and the fusion id it leaves. */
  datatype Outcome = Outcome(findings: seq<I.Issue>, fusionId: string)

  /** `handle_with_both_ids`: when the filename id is the text's first id or
      any later one, it becomes the fusion id; otherwise the mismatch is
      reported and the text's first id is checked as well. The filename id
      is always checked last. */
  function BothIdsOutcome(ff: FusionFilename, contentIds: seq<string>, names: NameMap, fusionId: string): Outcome
    requires ReadableIds(ff) && ff.dexIds.Some? && |contentIds| >= 1
    requires forall k :: 0 <= k < |contentIds| ==> DexIdText(contentIds[k], ff.idType.ComponentCount())
  {
    var f := ff.dexIds.value;
    Outcome(MismatchFindings(ff, contentIds, names) + DexFindings(ff.idType, f, names),
            if f == contentIds[0] || f in contentIds then f else fusionId)
  }

  /** What `handle_with_both_ids` reports before the filename id's check:
      nothing when the text names the filename id, otherwise the mismatch
      and the dex check of the text's first id. */
  function MismatchFindings(ff: FusionFilename, contentIds: seq<string>, names: NameMap): seq<I.Issue>
    requires ReadableIds(ff) && ff.dexIds.Some? && |contentIds| >= 1
    requires forall k :: 0 <= k < |contentIds| ==> DexIdText(contentIds[k], ff.idType.ComponentCount())
  {
    var f := ff.dexIds.value;
    var c := contentIds[0];
    if f == c || f in contentIds then [] else [I.DifferentSprite(f, c)] + DexFindings(ff.idType, c, names)
  }

  /** `handle_some_content`: both ids, only the filename's, only the
      text's, or neither. `filename` is what `get_filename` returns. */
  function SomeContentOutcome(ff: FusionFilename, contentIds: seq<string>, filename: string, names: NameMap,
                              fusionId: string): Outcome
    requires ReadableIds(ff)
    requires forall k :: 0 <= k < |contentIds| ==> DexIdText(contentIds[k], ff.idType.ComponentCount())
  {
    if ff.dexIds.Some? && |contentIds| >= 1 then BothIdsOutcome(ff, contentIds, names, fusionId)
    else if ff.dexIds.Some? then Outcome(DexFindings(ff.idType, ff.dexIds.value, names), ff.dexIds.value)
    else if |contentIds| >= 1 then Outcome([I.MissingFilename, I.FileName(filename)], fusionId)
    else Outcome([I.UnknownSprite, I.FileName(filename)], fusionId)
  }

  /** With both ids, the mismatch finding is added exactly when the filename
      id is not among the text's ids, and then the fusion id is kept; when it
      is among them, it becomes the fusion id and only its dex finding is
      added. */
  lemma BothIdsSpec(ff: FusionFilename, contentIds: seq<string>, names: NameMap, fusionId: string)
    requires ReadableIds(ff) && ff.dexIds.Some? && |contentIds| >= 1
    requires forall k :: 0 <= k < |contentIds| ==> DexIdText(contentIds[k], ff.idType.ComponentCount())
    ensures var out := BothIdsOutcome(ff, contentIds, names, fusionId);
      (I.HasKind(out.findings, I.KDifferentSprite) <==> ff.dexIds.value !in contentIds)
      && (ff.dexIds.value in contentIds ==>
            out.fusionId == ff.dexIds.value && out.findings == DexFindings(ff.idType, ff.dexIds.value, names))
      && (ff.dexIds.value !in contentIds ==>
            out.fusionId == fusionId && |out.findings| == 3
            && out.findings[0] == I.DifferentSprite(ff.dexIds.value, contentIds[0]))
  {
    var f := ff.dexIds.value;
    var out := BothIdsOutcome(ff, contentIds, names, fusionId);
    DexFindingsSingle(ff.idType, f, names);
    DexFindingsSingle(ff.idType, contentIds[0], names);
    if f in contentIds {
      NoDifferentSprite(out.findings);
    } else {
      assert I.KindOf(out.findings[0]) == I.KDifferentSprite;
    }
  }

  /** A dex finding is never a mismatch finding. */
  lemma NoDifferentSprite(list: seq<I.Issue>)
    requires forall k :: 0 <= k < |list| ==> !list[k].DifferentSprite?
    ensures !I.HasKind(list, I.KDifferentSprite)
  {
    forall k | 0 <= k < |list| ensures I.KindOf(list[k]) != I.KDifferentSprite {
    }
  }

  /** The four ways through `handle_some_content`: the dex check of the
      filename id (after any mismatch report) when it exists; otherwise two
      findings, the missing filename or the unknown sprite first and the
      filename second. The fusion id changes only to the filename id. */
  lemma SomeContentSpec(ff: FusionFilename, contentIds: seq<string>, filename: string, names: NameMap,
                        fusionId: string)
    requires ReadableIds(ff)
    requires forall k :: 0 <= k < |contentIds| ==> DexIdText(contentIds[k], ff.idType.ComponentCount())
    ensures var out := SomeContentOutcome(ff, contentIds, filename, names, fusionId);
      out.fusionId == fusionId || Some(out.fusionId) == ff.dexIds
    ensures var out := SomeContentOutcome(ff, contentIds, filename, names, fusionId);
      ff.dexIds.Some? ==>
        |out.findings| >= 1
        && out.findings[|out.findings| - 1..] == DexFindings(ff.idType, ff.dexIds.value, names)
    ensures var out := SomeContentOutcome(ff, contentIds, filename, names, fusionId);
      ff.dexIds.None? ==>
        out.fusionId == fusionId
        && out.findings == [if |contentIds| >= 1 then I.MissingFilename else I.UnknownSprite, I.FileName(filename)]
  {
    if ff.dexIds.Some? {
      DexFindingsSingle(ff.idType, ff.dexIds.value, names);
      if |contentIds| >= 1 {
        DexFindingsSingle(ff.idType, contentIds[0], names);
      }
    }
  }

  // ---------------------------------------------------------------------
  // The context
  // ---------------------------------------------------------------------

  /** `ContentContext`: the filename id and type, and the ids in the text. */
  class ContentContext {
    const filenameFusionId: Option<string>
    const idType: IdType
    const isCustomBase: bool
    const isEggSprite: bool
    const contentFusionIdsList: seq<string>
    var contentFusionId: Option<string>

    /** `__init__`: the first text id is the content id. */
    constructor (analysis: Analysis)
      ensures filenameFusionId == analysis.fusionFilename.dexIds && idType == analysis.fusionFilename.idType
      ensures isCustomBase == idType.IsCustomBase() && isEggSprite == idType.IsEgg()
      ensures contentFusionIdsList == ContentIds(analysis.message.content, idType.ComponentCount())
      ensures contentFusionId == if |contentFusionIdsList| >= 1 then Some(contentFusionIdsList[0]) else None
    {
      filenameFusionId := analysis.fusionFilename.dexIds;
      idType := analysis.fusionFilename.idType;
      isCustomBase := analysis.fusionFilename.idType.IsCustomBase();
      isEggSprite := analysis.fusionFilename.idType.IsEgg();
      var ids := ExtractFusionIdsFromContent(analysis.message.content, analysis.fusionFilename.idType);
      contentFusionIdsList := ids;
      if |ids| >= 1 {
        contentFusionId := Some(ids[0]);
      } else {
        contentFusionId := None;
      }
    }

    /** `has_both_fusion_ids`. */
    predicate HasBothFusionIds()
      reads this
    {
      filenameFusionId.Some? && contentFusionId.Some?
    }

    /** The context was built from this analysis, and its content id is
        one of the text's ids. */
    ghost predicate Matches(analysis: Analysis)
      reads this, analysis
    {
      filenameFusionId == analysis.fusionFilename.dexIds && idType == analysis.fusionFilename.idType
      && ReadableIds(analysis.fusionFilename)
      && (forall k :: 0 <= k < |contentFusionIdsList| ==> DexIdText(contentFusionIdsList[k], idType.ComponentCount()))
      && (contentFusionId.Some? ==> |contentFusionIdsList| >= 1 && contentFusionId.value in contentFusionIdsList)
    }

    /** `handle_only_filename_id`. */
    method HandleOnlyFilenameId(analysis: Analysis, names: NameMap)
      requires Matches(analysis) && filenameFusionId.Some?
      modifies analysis`fusionId, analysis.issues
      ensures analysis.fusionId == filenameFusionId.value
      ensures analysis.issues.issueList
        == old(analysis.issues.issueList) + DexFindings(idType, filenameFusionId.value, names)
    {
      analysis.fusionId := filenameFusionId.value;
      HandleDexVerification(analysis, filenameFusionId.value, names);
    }

    /** `handle_mismatched_ids`: the mismatch, then the text id's dex check. */
    method HandleMismatchedIds(analysis: Analysis, names: NameMap)
      requires Matches(analysis) && HasBothFusionIds()
      modifies analysis.issues
      ensures analysis.issues.issueList == old(analysis.issues.issueList)
        + [I.DifferentSprite(filenameFusionId.value, contentFusionId.value)]
        + DexFindings(idType, contentFusionId.value, names)
    {
      analysis.issues.Add(I.DifferentSprite(filenameFusionId.value, contentFusionId.value));
      HandleDexVerification(analysis, contentFusionId.value, names);
    }

    /** `handle_with_both_ids`, as the reconciliation outcome. */
    method HandleWithBothIds(analysis: Analysis, names: NameMap)
      requires Matches(analysis) && HasBothFusionIds() && contentFusionId == Some(contentFusionIdsList[0])
      modifies this`contentFusionId, analysis`fusionId, analysis.issues
      ensures Matches(analysis)
      ensures var out := BothIdsOutcome(analysis.fusionFilename, contentFusionIdsList, names, old(analysis.fusionId));
        analysis.issues.issueList == old(analysis.issues.issueList) + out.findings
        && analysis.fusionId == out.fusionId
      ensures contentFusionId
        == if filenameFusionId.value in contentFusionIdsList then filenameFusionId else old(contentFusionId)
    {
      ghost var before := analysis.issues.issueList;
      var f := filenameFusionId.value;
      ReconcileIds(analysis, names);
      ghost var mismatch := MismatchFindings(analysis.fusionFilename, contentFusionIdsList, names);
      HandleDexVerification(analysis, f, names);
      ghost var check := DexFindings(idType, f, names);
      assert analysis.issues.issueList == before + (mismatch + check);
    }

    /** The first part of `handle_with_both_ids`: the filename id becomes the
        fusion id when the text names it; otherwise the mismatch is reported
        and the text's first id checked. */
    method ReconcileIds(analysis: Analysis, names: NameMap)
      requires Matches(analysis) && HasBothFusionIds() && contentFusionId == Some(contentFusionIdsList[0])
      modifies this`contentFusionId, analysis`fusionId, analysis.issues
      ensures Matches(analysis) && analysis.fusionFilename == old(analysis.fusionFilename)
      ensures analysis.issues.issueList
        == old(analysis.issues.issueList) + MismatchFindings(analysis.fusionFilename, contentFusionIdsList, names)
      ensures var f := filenameFusionId.value;
        if f == contentFusionIdsList[0] || f in contentFusionIdsList then
          analysis.fusionId == f && contentFusionId == filenameFusionId
        else
          analysis.fusionId == old(analysis.fusionId) && contentFusionId == old(contentFusionId)
    {
      var f := filenameFusionId.value;
      if f != contentFusionId.value && f !in contentFusionIdsList {
        HandleMismatchedIds(analysis, names);
      } else {
        contentFusionId := filenameFusionId;
        analysis.fusionId := f;
      }
    }
  }

  // ---------------------------------------------------------------------
  // The entry points
  // ---------------------------------------------------------------------

  /** `handle_no_filename_id`. */
  method HandleNoFilenameId(analysis: Analysis)
    requires FilenameReadable(analysis.message, analysis.specificAttachment, analysis.analysisType)
    modifies analysis.issues
    ensures analysis.issues.issueList == old(analysis.issues.issueList)
      + [I.MissingFilename, I.FileName(FilenameOf(analysis.message, analysis.specificAttachment, analysis.analysisType))]
  {
    analysis.issues.Add(I.MissingFilename);
    var filename := FilenameOf(analysis.message, analysis.specificAttachment, analysis.analysisType);
    analysis.issues.Add(I.FileName(filename));
  }

  /** `handle_unknown_id`. */
  method HandleUnknownId(analysis: Analysis)
    requires FilenameReadable(analysis.message, analysis.specificAttachment, analysis.analysisType)
    modifies analysis.issues
    ensures analysis.issues.issueList == old(analysis.issues.issueList)
      + [I.UnknownSprite, I.FileName(FilenameOf(analysis.message, analysis.specificAttachment, analysis.analysisType))]
  {
    analysis.issues.Add(I.UnknownSprite);
    var filename := FilenameOf(analysis.message, analysis.specificAttachment, analysis.analysisType);
    analysis.issues.Add(I.FileName(filename));
  }

  /** `handle_no_content`. */
  method HandleNoContent(analysis: Analysis)
    modifies analysis.issues
    ensures analysis.issues.issueList == old(analysis.issues.issueList) + [I.MissingSprite]
  {
    analysis.issues.Add(I.MissingSprite);
  }

  /** `handle_some_content`: builds the context and takes one of the four
      ways. Getting the filename needs a readable source whenever the
      filename id is missing. */
  method HandleSomeContent(analysis: Analysis, names: NameMap)
    requires ReadableIds(analysis.fusionFilename)
    requires FilenameReadable(analysis.message, analysis.specificAttachment, analysis.analysisType)
    modifies analysis`fusionId, analysis.issues
    ensures var out := SomeContentOutcome(
        analysis.fusionFilename,
        ContentIds(analysis.message.content, analysis.fusionFilename.idType.ComponentCount()),
        FilenameOf(analysis.message, analysis.specificAttachment, analysis.analysisType),
        names, old(analysis.fusionId));
      analysis.issues.issueList == old(analysis.issues.issueList) + out.findings
      && analysis.fusionId == out.fusionId
  {
    var context := new ContentContext(analysis);
    if context.HasBothFusionIds() {
      context.HandleWithBothIds(analysis, names);
    } else if context.filenameFusionId.Some? {
      context.HandleOnlyFilenameId(analysis, names);
    } else if context.contentFusionId.Some? {
      HandleNoFilenameId(analysis);
    } else {
      HandleUnknownId(analysis);
    }
  }

  /** `main`: a message with a file (or a zigzag embed) is reconciled;
      one without gets the missing-sprite finding and nothing else. The
      verdict is never touched here. */
  method ContentMain(analysis: Analysis, names: NameMap)
    requires ReadableIds(analysis.fusionFilename)
    requires ZigzagUrlReadable(analysis.message, analysis.analysisType)
    modifies analysis`fusionId, analysis.issues
    ensures analysis.severity == old(analysis.severity)
    ensures var some := analysis.specificAttachment.Some? || HasAttachment(analysis.message)
                        || HasZigzagEmbed(analysis.analysisType);
      some ==>
        var out := SomeContentOutcome(
          analysis.fusionFilename,
          ContentIds(analysis.message.content, analysis.fusionFilename.idType.ComponentCount()),
          FilenameOf(analysis.message, analysis.specificAttachment, analysis.analysisType),
          names, old(analysis.fusionId));
        analysis.issues.issueList == old(analysis.issues.issueList) + out.findings
        && analysis.fusionId == out.fusionId
    ensures var some := analysis.specificAttachment.Some? || HasAttachment(analysis.message)
                        || HasZigzagEmbed(analysis.analysisType);
      !some ==>
        analysis.issues.issueList == old(analysis.issues.issueList) + [I.MissingSprite]
        && analysis.fusionId == old(analysis.fusionId)
  {
    if analysis.specificAttachment.Some? || HasAttachment(analysis.message) || HasZigzagEmbed(analysis.analysisType) {
      HandleSomeContent(analysis, names);
      return;
    }
    HandleNoContent(analysis);
  }
}
