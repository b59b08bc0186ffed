/** Findings: one record per kind of finding, each with a fixed severity tag
    and a one-line rendering, and the append-only list an analysis collects
    them in. */
module Issues {
  import opened Wrappers
  import opened Text
  import opened Enums

  datatype Issue =
    | DifferentSprite(filenameFusionId: string, contentFusionId: string)
    | MissingFilename
    | MissingSprite
    | MissingMessageId
    | DifferentFilenameIds
    | PokemonNames(headName: Option<string>, bodyName: Option<string>)
    | CustomBase(baseName: Option<string>)
    | EggSprite(eggName: Option<string>)
    | TripleFusionSprite
    | UnknownSprite
    | OutOfDex(fusionId: string)
    | IncorrectGallery(idType: IdType, gallery: string)
    | NotPng(fileFormat: Option<string>)
    | InvalidSize(width: int, height: int)
    | FileName(filename: string)
    | ColorAmount(amount: int)
    | ColorExcessRefused(maximum: int)
    | ColorExcessControversial(maximum: int)
    | ColorOverExcess(maximum: int)
    | SimilarityExcessControversial(maximum: int)
    | SimilarityExcessRefused(maximum: int)
    | MissingTransparency
    | AsepriteUser(ratio: int)
    | GraphicsGaleUser
    | SemiTransparency
    | IntentionalTransparency
    | SimilarityAmount(amount: int)
    | HalfPixels
    | MisplacedGrid

  /** The finding classes, for `isinstance` queries. */
  datatype IssueKind =
    | KDifferentSprite | KMissingFilename | KMissingSprite | KMissingMessageId
    | KDifferentFilenameIds | KPokemonNames | KCustomBase | KEggSprite
    | KTripleFusionSprite | KUnknownSprite | KOutOfDex | KIncorrectGallery
    | KNotPng | KInvalidSize | KFileName | KColorAmount | KColorExcessRefused
    | KColorExcessControversial | KColorOverExcess | KSimilarityExcessControversial
    | KSimilarityExcessRefused | KMissingTransparency | KAsepriteUser
    | KGraphicsGaleUser | KSemiTransparency | KIntentionalTransparency
    | KSimilarityAmount | KHalfPixels | KMisplacedGrid

  function KindOf(i: Issue): IssueKind {
    match i
    case DifferentSprite(_, _) => KDifferentSprite
    case MissingFilename => KMissingFilename
    case MissingSprite => KMissingSprite
    case MissingMessageId => KMissingMessageId
    case DifferentFilenameIds => KDifferentFilenameIds
    case PokemonNames(_, _) => KPokemonNames
    case CustomBase(_) => KCustomBase
    case EggSprite(_) => KEggSprite
    case TripleFusionSprite => KTripleFusionSprite
    case UnknownSprite => KUnknownSprite
    case OutOfDex(_) => KOutOfDex
    case IncorrectGallery(_, _) => KIncorrectGallery
    case NotPng(_) => KNotPng
    case InvalidSize(_, _) => KInvalidSize
    case FileName(_) => KFileName
    case ColorAmount(_) => KColorAmount
    case ColorExcessRefused(_) => KColorExcessRefused
    case ColorExcessControversial(_) => KColorExcessControversial
    case ColorOverExcess(_) => KColorOverExcess
    case SimilarityExcessControversial(_) => KSimilarityExcessControversial
    case SimilarityExcessRefused(_) => KSimilarityExcessRefused
    case MissingTransparency => KMissingTransparency
    case AsepriteUser(_) => KAsepriteUser
    case GraphicsGaleUser => KGraphicsGaleUser
    case SemiTransparency => KSemiTransparency
    case IntentionalTransparency => KIntentionalTransparency
    case SimilarityAmount(_) => KSimilarityAmount
    case HalfPixels => KHalfPixels
    case MisplacedGrid => KMisplacedGrid
  }

  /** The severity tag each finding class carries (a class attribute in the
      source, never consulted when the verdict is computed). */
  function SeverityOf(i: Issue): Severity {
    match i
    case DifferentSprite(_, _) => Refused
    case MissingFilename => Refused
    case MissingSprite => Ignored
    case MissingMessageId => Refused
    case DifferentFilenameIds => Refused
    case PokemonNames(_, _) => Accepted
    case CustomBase(_) => Accepted
    case EggSprite(_) => Accepted
    case TripleFusionSprite => Accepted
    case UnknownSprite => Ignored
    case OutOfDex(_) => Refused
    case IncorrectGallery(_, _) => Refused
    case NotPng(_) => Refused
    case InvalidSize(_, _) => Refused
    case FileName(_) => Accepted
    case ColorAmount(_) => Accepted
    case ColorExcessRefused(_) => Refused
    case ColorExcessControversial(_) => Controversial
    case ColorOverExcess(_) => Refused
    case SimilarityExcessControversial(_) => Refused
    case SimilarityExcessRefused(_) => Controversial
    case MissingTransparency => Refused
    case AsepriteUser(_) => Accepted
    case GraphicsGaleUser => Accepted
    case SemiTransparency => Controversial
    case IntentionalTransparency => Accepted
    case SimilarityAmount(_) => Controversial
    case HalfPixels => Refused
    case MisplacedGrid => Controversial
  }

  /** The two similarity-excess classes carry each other's tag, exactly as
      the classes are written; the missing-sprite and unknown-sprite
      findings are the only `ignored` ones. */
  lemma SeverityTags(m: int)
    ensures SeverityOf(SimilarityExcessControversial(m)) == Refused
    ensures SeverityOf(SimilarityExcessRefused(m)) == Controversial
    ensures SeverityOf(HalfPixels) == Refused && SeverityOf(MisplacedGrid) == Controversial
    ensures forall i :: SeverityOf(i) == Ignored <==> (i == MissingSprite || i == UnknownSprite)
  {
  }

  /** Python's `str()` of an optional string. */
  function OptionText(s: Option<string>): string {
    match s
    case None => "None"
    case Some(t) => t
  }

  /** `str(issue)`: the finding's one-line text. */
  function Render(i: Issue): string {
    match i
    case DifferentSprite(f, c) => "Different IDs (" + f + ") (" + c + ")"
    case MissingFilename => "Missing filename"
    case MissingSprite => "Missing sprite"
    case MissingMessageId => "Missing fusion ID in gallery message"
    case DifferentFilenameIds => "Different fusions in the same gallery message"
    case PokemonNames(h, b) => OptionText(h) + "/" + OptionText(b)
    case CustomBase(n) => OptionText(n) + " custom base"
    case EggSprite(n) => OptionText(n) + " egg sprite"
    case TripleFusionSprite => "Triple fusion"
    case UnknownSprite => "Unknown filename"
    case OutOfDex(id) => "Invalid fusion ID (" + id + ")"
    case IncorrectGallery(t, g) => "Incorrect gallery: " + t.Value() + " in " + g
    case NotPng(f) => "Invalid image format: " + OptionText(f)
    case InvalidSize(w, h) => "Invalid size (" + IntToString(w) + ", " + IntToString(h) + ")"
    case FileName(n) => "Filename: " + n
    case ColorAmount(a) => "Colors: " + IntToString(a)
    case ColorExcessRefused(m) => "Color excess (max: " + IntToString(m) + ")"
    case ColorExcessControversial(m) => "Color excess (over " + IntToString(m) + ")"
    case ColorOverExcess(m) => "Color excess (+" + IntToString(m) + ")"
    case SimilarityExcessControversial(m) => "High number of similar color pairs (over " + IntToString(m) + ")"
    case SimilarityExcessRefused(m) => "Over maximum limit of similar color pairs (limit: " + IntToString(m) + ")"
    case MissingTransparency => "Missing transparency"
    case AsepriteUser(r) => "Aseprite (r" + IntToString(r) + ")"
    case GraphicsGaleUser => "GraphicsGale"
    case SemiTransparency => "Semi transparent pixels"
    case IntentionalTransparency => "Intentional transparency"
    case SimilarityAmount(a) => "Similarity: " + IntToString(a)
    case HalfPixels => "Half pixels detected"
    case MisplacedGrid => "Not aligned in the grid (it's fine)"
  }

  /** The rendering of a mismatch names both ids, each in parentheses. */
  lemma DifferentSpriteNamesBoth(f: string, c: string)
    ensures OccursAt(Render(DifferentSprite(f, c)), "(" + f + ")", |"Different IDs "|)
    ensures OccursAt(Render(DifferentSprite(f, c)), "(" + c + ")", |Render(DifferentSprite(f, c))| - |c| - 2)
  {
    var r := Render(DifferentSprite(f, c));
    assert r == "Different IDs " + ("(" + f + ")") + " " + ("(" + c + ")");
  }

  /** One list entry as the list renders it. */
  function Line(i: Issue): string {
    "- **" + Render(i) + "**\n"
  }

  function Lines(list: seq<Issue>): (r: seq<string>)
    ensures |r| == |list| && forall k :: 0 <= k < |list| ==> r[k] == Line(list[k])
  {
    seq(|list|, k requires 0 <= k < |list| => Line(list[k]))
  }

  /** `str(issues)`: one line per finding, in list order. */
  function Rendered(list: seq<Issue>): string {
    Concat(Lines(list))
  }

  /** Rendering distributes over appending findings; in particular the empty
      list renders as "" and adding a finding adds exactly its line. */
  lemma RenderedAppend(a: seq<Issue>, b: seq<Issue>)
    ensures Rendered(a + b) == Rendered(a) + Rendered(b)
    ensures Rendered([]) == ""
  {
    assert Lines(a + b) == Lines(a) + Lines(b);
    ConcatAppend(Lines(a), Lines(b));
  }

  /** Rendering one more finding of a list adds that finding's line. */
  lemma RenderedPrefix(list: seq<Issue>, k: nat)
    requires k < |list|
    ensures Rendered(list[..k + 1]) == Rendered(list[..k]) + Line(list[k])
  {
    var lines := Lines(list[..k]);
    assert Lines(list[..k + 1]) == lines + [Line(list[k])];
    ConcatSnoc(lines, Line(list[k]));
  }

  /** `any(isinstance(issue, kind) for issue in list)`. */
  predicate HasKind(list: seq<Issue>, kind: IssueKind) {
    exists k :: 0 <= k < |list| && KindOf(list[k]) == kind
  }

  /** After an append the query holds exactly when it held before or the new
      finding is of the kind asked about; so once true it stays true. */
  lemma HasKindAppend(list: seq<Issue>, more: seq<Issue>, kind: IssueKind)
    ensures HasKind(list + more, kind) <==> HasKind(list, kind) || HasKind(more, kind)
  {
    if HasKind(list + more, kind) {
      var k :| 0 <= k < |list + more| && KindOf((list + more)[k]) == kind;
      if k >= |list| {
        assert KindOf(more[k - |list|]) == kind;
      } else {
        assert KindOf(list[k]) == kind;
      }
    }
    if HasKind(list, kind) {
      var k :| 0 <= k < |list| && KindOf(list[k]) == kind;
      assert KindOf((list + more)[k]) == kind;
    }
    if HasKind(more, kind) {
      var k :| 0 <= k < |more| && KindOf(more[k]) == kind;
      assert KindOf((list + more)[|list| + k]) == kind;
    }
  }

  /** The findings list of one analysis. */
  class Issues {
    var issueList: seq<Issue>

    constructor ()
      ensures issueList == []
    {
      issueList := [];
    }

    /** Appends at the end; earlier entries are unchanged. */
    method Add(issue: Issue)
      modifies this
      ensures issueList == old(issueList) + [issue]
      ensures forall kind :: old(HasIssue(kind)) ==> HasIssue(kind)
      ensures HasIssue(KindOf(issue))
    {
      issueList := issueList + [issue];
      forall kind ensures HasKind(old(issueList), kind) ==> HasKind(issueList, kind) {
        HasKindAppend(old(issueList), [issue], kind);
      }
      assert KindOf([issue][0]) == KindOf(issue);
      HasKindAppend(old(issueList), [issue], KindOf(issue));
    }

    predicate HasIssue(kind: IssueKind)
      reads this
    {
      HasKind(issueList, kind)
    }

    /** `str(self)`: accumulates the lines in list order. */
    method ToString() returns (s: string)
      ensures s == Rendered(issueList)
    {
      s := "";
      var k := 0;
      while k < |issueList|
        invariant 0 <= k <= |issueList|
        invariant s == Rendered(issueList[..k])
      {
        RenderedPrefix(issueList, k);
        s := s + Line(issueList[k]);
        k := k + 1;
      }
      assert issueList[..k] == issueList;
    }
  }
}
