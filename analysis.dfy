/** The record one analysis fills in: the message and attachment under
    review, what the filename was read as, the findings and the verdict so
    far, the flags and highlight images the sprite stages leave behind, and
    the report built from all of it at the end. */
module AnalysisRecord {
  import opened Wrappers
  import opened Text
  import opened Enums
  import opened Platform
  import I = Issues
  import DexIds
  import opened FilenameAnalysis
  import Palette

  /** The fusion id an analysis holds until one is found. */
  const DefaultFusionId := "DEFAULT_VALUE"
  /** Side of one sprite in an autogenerated spritesheet. */
  const AutogenSize := 96
  /** Sprites per row of an autogenerated spritesheet. */
  const SheetColumns := 10
  /** Where the report's image points when an autogen sprite is attached. */
  const AttachedImageUrl := "attachment://image.png"
  const AutogenNote := "\n\n**Autogen version:** (do not use as reference)"
  const TransparencyBonusTitle := "Semi transparent pixel location:"
  const HalfPixelsBonusTitle := "Half pixel location:"

  // ---------------------------------------------------------------------
  // Where the filename and the image come from
  // ---------------------------------------------------------------------

  predicate HasAttachment(m: Message) {
    |m.attachments| >= 1
  }

  /** `has_zigzag_embed`: a zigzag post always carries an embed list. */
  predicate HasZigzagEmbed(t: AnalysisType) {
    t.IsZigzagGalpost()
  }

  /** The analysis has a file to read a name from. */
  predicate HasFilenameSource(m: Message, t: AnalysisType) {
    HasAttachment(m) || t.IsZigzagGalpost()
  }

  /** `get_attachment_url_from_embed`: the URL of the first embed's image. */
  function AttachmentUrlFromEmbed(m: Message): Option<string> {
    if |m.embeds| == 0 then None else m.embeds[0].imageUrl
  }

  /** A zigzag post's filename is read from its embed's image URL, which
      must then exist. */
  predicate ZigzagUrlReadable(m: Message, t: AnalysisType) {
    t.IsZigzagGalpost() ==> AttachmentUrlFromEmbed(m).Some?
  }

  /** A filename can be read: from the embed of a zigzag post, from the
      chosen attachment, or from the first attachment of the message. */
  predicate FilenameReadable(m: Message, specific: Option<Attachment>, t: AnalysisType) {
    if t.IsZigzagGalpost() then AttachmentUrlFromEmbed(m).Some?
    else specific.Some? || HasAttachment(m)
  }

  /** `get_filename`. */
  function FilenameOf(m: Message, specific: Option<Attachment>, t: AnalysisType): string
    requires FilenameReadable(m, specific, t)
  {
    if t.IsZigzagGalpost() then GetFilenameFromZigzagImageUrl(AttachmentUrlFromEmbed(m).value)
    else if specific.None? then m.attachments[0].filename
    else specific.value.filename
  }

  /** `get_attachment_url`. */
  function AttachmentUrlOf(m: Message, specific: Option<Attachment>, t: AnalysisType): (r: Option<string>)
    requires t.IsZigzagGalpost() || specific.Some? || HasAttachment(m)
    ensures !t.IsZigzagGalpost() ==> r.Some?
  {
    if t.IsZigzagGalpost() then AttachmentUrlFromEmbed(m)
    else if specific.None? then Some(m.attachments[0].url)
    else Some(specific.value.url)
  }

  /** What a message without any file is read as. */
  const UnknownFilename := FusionFilename(Some(""), IdType.Unknown, None, None)

  /** The filename reading `generate_fusion_filename` produces. */
  function FusionFilenameOf(m: Message, specific: Option<Attachment>, t: AnalysisType): FusionFilename
    requires ZigzagUrlReadable(m, t)
  {
    if !HasFilenameSource(m, t) then UnknownFilename
    else
      var f := FilenameOf(m, specific, t);
      GetFusionFilenameCases(f);
      GetFusionFilename(f).value
  }

  /** The change `generate_fusion_filename` makes to the AI suspicion. */
  function SuspicionBump(m: Message, specific: Option<Attachment>, t: AnalysisType): int
    requires ZigzagUrlReadable(m, t)
  {
    if !HasFilenameSource(m, t) then 0
    else if DexIds.IsChatGptInFilename(FilenameOf(m, specific, t)) then 20
    else if FusionFilenameOf(m, specific, t).idType.IsUnknown() then 4
    else 0
  }

  /** Without a file the reading is the empty unknown one; with one, it is
      of unknown type exactly when no well-formed sprite name spells the
      filename. A name that does spell it is read back with its ids. */
  lemma FusionFilenameOfSpec(m: Message, specific: Option<Attachment>, t: AnalysisType)
    requires ZigzagUrlReadable(m, t)
    ensures !HasFilenameSource(m, t) ==> FusionFilenameOf(m, specific, t) == UnknownFilename
    ensures HasFilenameSource(m, t) ==>
      (FusionFilenameOf(m, specific, t).idType.IsUnknown()
       <==> (forall n: SpriteName | WellFormed(n) :: BuildFilename(n) != FilenameOf(m, specific, t)))
    ensures forall n: SpriteName | WellFormed(n) && HasFilenameSource(m, t) && BuildFilename(n) == FilenameOf(m, specific, t)
      :: FusionFilenameOf(m, specific, t).dexIds == Some(Join(n.ids, '.'))
         && FusionFilenameOf(m, specific, t).idType == n.idType
  {
    if HasFilenameSource(m, t) {
      var f := FilenameOf(m, specific, t);
      GetFusionFilenameCases(f);
      forall n: SpriteName | WellFormed(n) && BuildFilename(n) == f
        ensures FusionFilenameOf(m, specific, t).dexIds == Some(Join(n.ids, '.'))
        ensures FusionFilenameOf(m, specific, t).idType == n.idType
      {
        GetFusionFilenameOfBuild(n);
      }
    }
  }

  /** The suspicion grows by 20 for a "ChatGPT" filename, otherwise by 4 for
      a filename no sprite name spells, and not at all without a file. */
  lemma SuspicionBumpSpec(m: Message, specific: Option<Attachment>, t: AnalysisType)
    requires ZigzagUrlReadable(m, t)
    ensures SuspicionBump(m, specific, t) in {0, 4, 20}
    ensures SuspicionBump(m, specific, t) == 20
      <==> HasFilenameSource(m, t) && StartsWith(FilenameOf(m, specific, t), "ChatGPT")
    ensures SuspicionBump(m, specific, t) == 4
      <==> HasFilenameSource(m, t) && !StartsWith(FilenameOf(m, specific, t), "ChatGPT")
           && forall n: SpriteName | WellFormed(n) :: BuildFilename(n) != FilenameOf(m, specific, t)
  {
    FusionFilenameOfSpec(m, specific, t);
  }

  /** The fusion id an analysis starts with: the filename's dex ids when
      there are any, otherwise the default. */
  function InitialFusionId(ff: FusionFilename): string {
    if ff.dexIds.Some? && ff.dexIds.value != "" then ff.dexIds.value else DefaultFusionId
  }

  /** A filename spelled by a well-formed sprite name starts the analysis
      with that name's ids; an unrecognised one with the default. */
  lemma InitialFusionIdOfBuild(n: SpriteName)
    requires WellFormed(n)
    ensures GetFusionFilename(BuildFilename(n)).Ok?
    ensures InitialFusionId(GetFusionFilename(BuildFilename(n)).value) == Join(n.ids, '.')
    ensures InitialFusionId(UnknownFilename) == DefaultFusionId
  {
    GetFusionFilenameOfBuild(n);
    JoinStartsWithFirst(n.ids);
  }

  /** A join starts with its first part, so it is not empty when that part
      is a component. */
  lemma JoinStartsWithFirst(ids: seq<string>)
    requires |ids| >= 1 && DexIds.IsComponent(ids[0])
    ensures |Join(ids, '.')| >= |ids[0]| > 0
  {
  }

  // ---------------------------------------------------------------------
  // The record
  // ---------------------------------------------------------------------

  /** The report posted at the end of an analysis. The author line is left
      out: it shows the author's avatar, fetched from the platform. */
  datatype Report = Report(
    title: string,
    description: string,
    colour: int,
    footer: Option<string>,
    image: Option<string>,
    thumbnail: Option<string>)

  /** A second report that only shows a highlight image. */
  datatype BonusReport = BonusReport(colour: int, title: string)

  class Analysis {
    var message: Message
    var specificAttachment: Option<Attachment>
    var analysisType: AnalysisType
    var issues: I.Issues
    var severity: Severity
    var fusionId: string
    var fusionFilename: FusionFilename
    var autogenAvailable: bool
    var attachmentUrl: Option<string>
    var sizeIssue: bool
    var transparencyIssue: bool
    var transparencyImage: Option<array2<Palette.Color>>
    var transparencyReport: Option<BonusReport>
    var halfPixelsIssue: bool
    var halfPixelsImage: Option<array2<Palette.Color>>
    var halfPixelsReport: Option<BonusReport>
    var aiSuspicion: int
    var report: Option<Report>

    /** `__init__`: an empty, accepted analysis whose filename reading, fusion
        id, image URL and suspicion come from the message. */
    constructor (message: Message, specificAttachment: Option<Attachment>, analysisType: AnalysisType)
      requires ZigzagUrlReadable(message, analysisType)
      ensures this.message == message && this.specificAttachment == specificAttachment
      ensures this.analysisType == analysisType
      ensures fresh(issues) && issues.issueList == [] && severity == Accepted
      ensures fusionFilename == FusionFilenameOf(message, specificAttachment, analysisType)
      ensures aiSuspicion == SuspicionBump(message, specificAttachment, analysisType)
      ensures fusionId == InitialFusionId(fusionFilename)
      ensures attachmentUrl
        == if HasFilenameSource(message, analysisType) then AttachmentUrlOf(message, specificAttachment, analysisType) else None
      ensures !autogenAvailable && !sizeIssue && !transparencyIssue && !halfPixelsIssue
      ensures transparencyImage == None && halfPixelsImage == None
      ensures transparencyReport == None && halfPixelsReport == None && report == None
    {
      this.message := message;
      this.specificAttachment := specificAttachment;
      this.analysisType := analysisType;
      issues := new I.Issues();
      severity := Accepted;
      fusionId := DefaultFusionId;
      fusionFilename := UnknownFilename;
      autogenAvailable := false;
      attachmentUrl := None;
      sizeIssue := false;
      transparencyIssue := false;
      transparencyImage := None;
      transparencyReport := None;
      halfPixelsIssue := false;
      halfPixelsImage := None;
      halfPixelsReport := None;
      aiSuspicion := 0;
      report := None;
      new;
      var ff := GenerateFusionFilename();
      fusionFilename := ff;
      fusionId := InitialFusionId(ff);
      if HasAttachment(message) || HasZigzagEmbed(analysisType) {
        attachmentUrl := AttachmentUrlOf(message, specificAttachment, analysisType);
      }
    }

    /** `generate_fusion_filename`: reads the filename and bumps the AI
        suspicion for a "ChatGPT" or an unrecognised filename. */
    method GenerateFusionFilename() returns (ff: FusionFilename)
      requires ZigzagUrlReadable(message, analysisType)
      modifies this`aiSuspicion
      ensures ff == FusionFilenameOf(message, specificAttachment, analysisType)
      ensures aiSuspicion == old(aiSuspicion) + SuspicionBump(message, specificAttachment, analysisType)
    {
      if !(HasAttachment(message) || analysisType.IsZigzagGalpost()) {
        return UnknownFilename;
      }
      var filename := FilenameOf(message, specificAttachment, analysisType);
      GetFusionFilenameCases(filename);
      ff := GetFusionFilename(filename).value;
      if DexIds.IsChatGptInFilename(filename) {
        aiSuspicion := aiSuspicion + 20;
      } else if ff.idType.IsUnknown() {
        aiSuspicion := aiSuspicion + 4;
      }
    }

    /** `generate_embed`: the report's title, description, colour, footer,
        autogen image and thumbnail, and the bonus reports for the highlight
        images. The autogen check needs a readable id whenever it is
        consulted. */
    method GenerateEmbed()
      requires AutogenWanted(issues.HasIssue(I.KPokemonNames), fusionId) ==> AutogenReadable(fusionId)
      modifies this`report, this`autogenAvailable, this`transparencyReport, this`halfPixelsReport
      ensures var available := old(AutogenAvailable(issues.HasIssue(I.KPokemonNames), fusionId));
        && autogenAvailable == (old(autogenAvailable) || available)
        && report == old(Some(Report(
             TitleText(severity, fusionFilename.IdAndLetter()),
             DescriptionText(I.Rendered(issues.issueList), message.jumpUrl, available),
             SeverityColour(severity).Value(),
             FooterText(message.content),
             if available then Some(AttachedImageUrl) else None,
             attachmentUrl)))
      ensures transparencyReport
        == if transparencyIssue then Some(BonusReport(DiscordColour.Pink.Value(), TransparencyBonusTitle))
           else old(transparencyReport)
      ensures halfPixelsReport
        == if halfPixelsIssue then Some(BonusReport(DiscordColour.Red.Value(), HalfPixelsBonusTitle))
           else old(halfPixelsReport)
    {
      var text := issues.ToString();
      var title := TitleText(severity, fusionFilename.IdAndLetter());
      var available := ApplyImage();
      var description := DescriptionText(text, message.jumpUrl, available);
      report := Some(Report(title, description, SeverityColour(severity).Value(),
                            FooterText(message.content), if available then Some(AttachedImageUrl) else None,
                            attachmentUrl));
      HandleBonusEmbed();
    }

    /** `apply_image`: the autogen sprite is attached when a names finding
        exists and the fusion id has an autogenerated sprite. */
    method ApplyImage() returns (available: bool)
      requires AutogenWanted(issues.HasIssue(I.KPokemonNames), fusionId) ==> AutogenReadable(fusionId)
      modifies this`autogenAvailable
      ensures available == AutogenAvailable(issues.HasIssue(I.KPokemonNames), fusionId)
      ensures autogenAvailable == (old(autogenAvailable) || available)
    {
      available := false;
      if !issues.HasIssue(I.KPokemonNames) || fusionId == DefaultFusionId {
        return;
      }
      if DexIds.IsMissingAutogen(fusionId) {
        return;
      }
      autogenAvailable := true;
      available := true;
    }

    /** `handle_bonus_embed`: one bonus report per highlight image. */
    method HandleBonusEmbed()
      modifies this`transparencyReport, this`halfPixelsReport
      ensures transparencyReport
        == if transparencyIssue then Some(BonusReport(DiscordColour.Pink.Value(), TransparencyBonusTitle))
           else old(transparencyReport)
      ensures halfPixelsReport
        == if halfPixelsIssue then Some(BonusReport(DiscordColour.Red.Value(), HalfPixelsBonusTitle))
           else old(halfPixelsReport)
    {
      if transparencyIssue {
        transparencyReport := Some(BonusReport(DiscordColour.Pink.Value(), TransparencyBonusTitle));
      }
      if halfPixelsIssue {
        halfPixelsReport := Some(BonusReport(DiscordColour.Red.Value(), HalfPixelsBonusTitle));
      }
    }
  }

  // ---------------------------------------------------------------------
  // The report's parts
  // ---------------------------------------------------------------------

  /** `apply_title`: the verdict, then the id and letter when there is a
      non-empty one. */
  function TitleText(sev: Severity, idAndLetter: Option<string>): string {
    if idAndLetter.Some? && idAndLetter.value != "" then "__" + sev.Value() + ": " + idAndLetter.value + "__"
    else "__" + sev.Value() + ":__"
  }

  /** The title opens with the underlined verdict and closes the underline;
      a non-empty id and letter sit right after the verdict's colon and
      space, and without one the title is the verdict alone. */
  lemma TitleTextShape(sev: Severity, idAndLetter: Option<string>)
    ensures var r := TitleText(sev, idAndLetter);
      StartsWith(r, "__" + sev.Value() + ":") && |r| >= 2 && r[|r| - 2..] == "__"
    ensures var r := TitleText(sev, idAndLetter);
      idAndLetter.Some? && idAndLetter.value != ""
      ==> |r| == |sev.Value()| + 6 + |idAndLetter.value|
          && OccursAt(r, idAndLetter.value, |sev.Value()| + 4)
    ensures !(idAndLetter.Some? && idAndLetter.value != "") ==> |TitleText(sev, idAndLetter)| == |sev.Value()| + 5
  {
    var r := TitleText(sev, idAndLetter);
    if idAndLetter.Some? && idAndLetter.value != "" {
      assert r[|sev.Value()| + 4..|sev.Value()| + 4 + |idAndLetter.value|] == idAndLetter.value;
    }
    assert r[..|sev.Value()| + 3] == "__" + sev.Value() + ":";
  }

  /** A filename spelled by a well-formed sprite name puts that name's ids,
      egg marker and letter in the title. */
  lemma TitleOfBuild(sev: Severity, n: SpriteName)
    requires WellFormed(n)
    ensures GetFusionFilename(BuildFilename(n)).Ok?
    ensures TitleText(sev, GetFusionFilename(BuildFilename(n)).value.IdAndLetter())
      == "__" + sev.Value() + ": " + (Join(n.ids, '.') + EggPart(n) + n.letter + NewlinePart(n)) + "__"
  {
    GetFusionFilenameOfBuild(n);
    JoinStartsWithFirst(n.ids);
    var shown := Join(n.ids, '.') + EggPart(n) + n.letter + NewlinePart(n);
    var idAndLetter := GetFusionFilename(BuildFilename(n)).value.IdAndLetter();
    assert idAndLetter == Some(shown);
    TitleShown(sev, shown);
  }

  lemma TitleShown(sev: Severity, shown: string)
    requires shown != ""
    ensures TitleText(sev, Some(shown)) == "__" + sev.Value() + ": " + shown + "__"
  {
  }

  /** `apply_description`: the rendered findings, the link to the message
      and, when the autogen sprite is attached, a note saying so. */
  function DescriptionText(findings: string, jumpUrl: string, autogen: bool): string {
    var base := findings + "\n[Link to message](" + jumpUrl + ")";
    if autogen then base + AutogenNote else base
  }

  /** The description opens with the rendered findings, and it is longer by
      the note exactly when the autogen sprite is attached. */
  lemma DescriptionTextShape(findings: string, jumpUrl: string, autogen: bool)
    ensures StartsWith(DescriptionText(findings, jumpUrl, autogen), findings)
    ensures autogen <==> |DescriptionText(findings, jumpUrl, autogen)| == |findings| + |jumpUrl| + 20 + |AutogenNote|
  {
    var base := findings + "\n[Link to message](" + jumpUrl + ")";
    assert base[..|findings|] == findings;
    assert (base + AutogenNote)[..|findings|] == findings;
  }

  /** `DICT_SEVERITY_COLOUR`: every severity has its own colour, so the
      gray fallback is never used. */
  function SeverityColour(sev: Severity): (c: DiscordColour)
    ensures c != DiscordColour.Gray
  {
    match sev
    case Accepted => DiscordColour.Green
    case Ignored => DiscordColour.Orange
    case Controversial => DiscordColour.Pink
    case Refused => DiscordColour.Red
  }

  /** The report's colour tells the verdict apart. */
  lemma SeverityColourInjective(a: Severity, b: Severity)
    ensures SeverityColour(a).Value() == SeverityColour(b).Value() ==> a == b
    ensures SeverityColour(a).Value() != DiscordColour.Gray.Value()
  {
  }

  /** The characters `str.splitlines` breaks lines at. */
  predicate IsLineBoundary(c: char) {
    c as int in {0x0a, 0x0b, 0x0c, 0x0d, 0x1c, 0x1d, 0x1e, 0x85, 0x2028, 0x2029}
  }

  /** Where the line that starts at `i` ends. */
  function LineEnd(s: string, i: nat): (e: nat)
    requires i <= |s|
    ensures i <= e <= |s|
    ensures forall k :: i <= k < e ==> !IsLineBoundary(s[k])
    ensures e == |s| || IsLineBoundary(s[e])
    decreases |s| - i
  {
    if i == |s| || IsLineBoundary(s[i]) then i else LineEnd(s, i + 1)
  }

  /** `apply_footer`: the first line of the message, when the message has
      lines and the first one is not empty. */
  function FooterText(content: string): Option<string> {
    if content == "" then None
    else
      var first := content[..LineEnd(content, 0)];
      if first != "" then Some(first) else None
  }

  /** The footer is missing exactly when the message is empty or opens with
      a line break; otherwise it is the longest break-free start of the
      message. */
  lemma FooterTextShape(content: string)
    ensures FooterText(content).None? <==> content == "" || IsLineBoundary(content[0])
    ensures var r := FooterText(content);
      r.Some? ==>
        (StartsWith(content, r.value)
         && (forall k :: 0 <= k < |r.value| ==> !IsLineBoundary(r.value[k]))
         && (|r.value| == |content| || IsLineBoundary(content[|r.value|])))
  {
  }

  // ---------------------------------------------------------------------
  // The autogenerated sprite
  // ---------------------------------------------------------------------

  /** The autogen sprite is looked for: a names finding exists and the id is
      not the default. */
  predicate AutogenWanted(hasNames: bool, fusionId: string) {
    hasNames && fusionId != DefaultFusionId
  }

  /** `is_missing_autogen` can read the id: it has two numeric parts. */
  predicate AutogenReadable(fusionId: string) {
    var parts := Split(fusionId, '.');
    |parts| >= 2 && IsNumeral(parts[0]) && IsNumeral(parts[1])
  }

  /** `apply_image`'s decision. */
  predicate AutogenAvailable(hasNames: bool, fusionId: string)
    requires AutogenWanted(hasNames, fusionId) ==> AutogenReadable(fusionId)
  {
    AutogenWanted(hasNames, fusionId) && !DexIds.IsMissingAutogen(fusionId)
  }

  /** For a fusion id written from two numbers, the autogen sprite is
      attached exactly when a names finding exists and neither number is
      past the last autogenerated one, nor the body Necrozma's. */
  lemma AutogenAvailableOfPair(hasNames: bool, head: nat, body: nat)
    ensures AutogenReadable(DexIds.JoinNumbers([head, body]))
    ensures AutogenAvailable(hasNames, DexIds.JoinNumbers([head, body]))
      <==> hasNames && !(body == 450 || head > 501 || body > 501)
  {
    DexIds.MissingAutogenOfPair(head, body);
  }

  /** The box of the sheet cell `order` counts to, left to right and top to
      bottom, ten cells a row. */
  datatype Box = Box(left: int, top: int, right: int, bottom: int)

  /** The crop box in `cut_from_spritesheet`. */
  function CropBox(order: nat): (b: Box)
    ensures b.right - b.left == AutogenSize && b.bottom - b.top == AutogenSize
    ensures 0 <= b.left <= AutogenSize * (SheetColumns - 1) && 0 <= b.top
  {
    var row := order / SheetColumns;
    var column := order % SheetColumns;
    Box(column * AutogenSize, row * AutogenSize, column * AutogenSize + AutogenSize, row * AutogenSize + AutogenSize)
  }

  /** The cell's number can be read back from its box. */
  lemma CropBoxInverse(order: nat)
    ensures CropBox(order).left % AutogenSize == 0 && CropBox(order).top % AutogenSize == 0
    ensures order == SheetColumns * (CropBox(order).top / AutogenSize) + CropBox(order).left / AutogenSize
  {
    var b := CropBox(order);
    var row := order / SheetColumns;
    var column := order % SheetColumns;
    assert b.left == column * AutogenSize;
    assert b.top == row * AutogenSize;
  }

  /** Two different cells have boxes that do not overlap. */
  lemma CropBoxesDisjoint(a: nat, b: nat)
    requires a != b
    ensures var x, y := CropBox(a), CropBox(b);
      x.right <= y.left || y.right <= x.left || x.bottom <= y.top || y.bottom <= x.top
  {
    CropBoxInverse(a);
    CropBoxInverse(b);
    var x, y := CropBox(a), CropBox(b);
    if x.left != y.left {
      SeparatedMultiples(x.left / AutogenSize, y.left / AutogenSize);
    } else {
      SeparatedMultiples(x.top / AutogenSize, y.top / AutogenSize);
    }
  }

  /** Distinct multiples of the cell size are a cell apart. */
  lemma SeparatedMultiples(p: int, q: int)
    requires p != q
    ensures p * AutogenSize + AutogenSize <= q * AutogenSize || q * AutogenSize + AutogenSize <= p * AutogenSize
  {
    if p < q {
      assert (q - p) * AutogenSize >= AutogenSize;
    } else {
      assert (p - q) * AutogenSize >= AutogenSize;
    }
  }

  /** What `get_autogen_file` cuts: the head's sheet and the body's box,
      scaled three times. */
  datatype AutogenCut = AutogenCut(sheet: string, box: Box, scale: nat)

  /** `get_autogen_file`: nothing unless the id has exactly two parts; a
      body that is not a number raises `ValueError`. */
  function GetAutogenFile(fusionId: string): (r: Result<Option<AutogenCut>>)
    ensures r == Ok(None) <==> |Split(fusionId, '.')| != 2
    ensures r.Ok? && r.value.Some? ==>
      (r.value.value.scale == 3 && r.value.value.sheet == Split(fusionId, '.')[0] + ".png")
  {
    var ids := Split(fusionId, '.');
    if |ids| != 2 then Ok(None)
    else if !IsNumeral(ids[1]) then Raised("ValueError")
    else Ok(Some(AutogenCut(ids[0] + ".png", CropBox(ParseNat(ids[1])), 3)))
  }

  /** An id written from two numbers cuts the body's cell out of the head's
      sheet. */
  lemma GetAutogenFileOfPair(head: nat, body: nat)
    ensures GetAutogenFile(DexIds.JoinNumbers([head, body]))
      == Ok(Some(AutogenCut(NatToString(head) + ".png", CropBox(body), 3)))
  {
    DexIds.SplitJoinNumbers([head, body]);
    ParseNatToString(body);
  }
}
