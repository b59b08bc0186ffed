/** The bot's enumerations: verdict severities, the kind of analysis being
    run (which channel or trigger started it) and the kind of sprite id. */
module Enums {

  datatype Severity = Accepted | Ignored | Controversial | Refused {

    /** The text shown for the severity (the enum member's value). */
    function Value(): string {
      match this
      case Accepted => "Valid"
      case Ignored => "Unknown"
      case Controversial => "Controversial"
      case Refused => "Invalid"
    }

    /** Every severity other than `accepted` is worth a warning. */
    predicate IsWarnSeverity()
    {
      this != Accepted
    }
  }

  /** How a stage may change the verdict: keep it, force `refused`, or raise
      to `controversial` only when it is not already `refused`. */
  predicate Raised(before: Severity, after: Severity) {
    after == before || after == Refused || (after == Controversial && before != Refused)
  }

  /** Stages compose: a run of stages is itself a raise. */
  lemma RaisedTransitive(a: Severity, b: Severity, c: Severity)
    requires Raised(a, b) && Raised(b, c)
    ensures Raised(a, c)
  {
  }

  /** No stage ever lowers `refused`. */
  lemma RaisedKeepsRefused(after: Severity)
    requires Raised(Refused, after)
    ensures after == Refused
  {
  }

  /** On the ordered tiers accepted < controversial < refused a raise never
      goes down. */
  function Rank(s: Severity): (r: nat)
    requires s != Ignored
    ensures r <= 2
    ensures r == 0 <==> s == Accepted
    ensures r == 2 <==> s == Refused
  {
    match s
    case Accepted => 0
    case Controversial => 1
    case Refused => 2
  }

  lemma RaisedIsMonotonic(before: Severity, after: Severity)
    requires before != Ignored && Raised(before, after)
    ensures after != Ignored && Rank(before) <= Rank(after)
  {
  }

  /** The colours an embed's side bar can take. */
  datatype DiscordColour = Green | Orange | Red | Gray | Pink {

    /** The 24-bit RGB value of the colour. */
    function Value(): int {
      match this
      case Green => 0x2ecc71
      case Orange => 0xe67e22
      case Red => 0xe74c3c
      case Gray => 0xcdcdcd
      case Pink => 0xff00ff
    }
  }

  datatype AnalysisType =
    | SpriteGallery
    | AssetsGallery
    | PingReply
    | ZigzagFusion
    | ZigzagBase
    | AutoSpritework
  {
    predicate IsAssetsGallery()
    {
      this == AssetsGallery || this == ZigzagBase
    }

    predicate IsSpriteGallery()
    {
      this == SpriteGallery || this == ZigzagFusion
    }

    predicate IsGallery()
    {
      IsSpriteGallery() || IsAssetsGallery()
    }

    predicate IsReply()
    {
      this == PingReply || this == AutoSpritework
    }

    predicate IsZigzagGalpost()
    {
      this == ZigzagFusion || this == ZigzagBase
    }

    predicate IsAutomaticSpriteworkAnalysis()
    {
      this == AutoSpritework
    }
  }

  /** The sprite gallery, the assets gallery and the replies split the six
      analysis types between them: exactly one of the three holds. A zigzag
      post is a gallery post and never a reply, and only the automatic
      spritework analysis is a reply besides a ping. */
  lemma AnalysisTypePartition(t: AnalysisType)
    ensures (if t.IsSpriteGallery() then 1 else 0) + (if t.IsAssetsGallery() then 1 else 0)
          + (if t.IsReply() then 1 else 0) == 1
    ensures t.IsGallery() <==> !t.IsReply()
    ensures t.IsZigzagGalpost() ==> t.IsGallery() && !t.IsReply()
    ensures t.IsReply() <==> (t.IsAutomaticSpriteworkAnalysis() || t == PingReply)
  {
  }

  /** A warning is due exactly when the verdict is not `accepted`; a raise
      out of `accepted` to anything else always warns. */
  lemma WarnSeverityIffNotAccepted(s: Severity)
    ensures s.IsWarnSeverity() <==> s != Accepted
    ensures Raised(Accepted, s) && s != Accepted ==> s.IsWarnSeverity()
  {
  }

  datatype IdType = Fusion | CustomBase | Egg | Triple | Unknown {

    /** The text shown for the id type (the enum member's value). */
    function Value(): string {
      match this
      case Fusion => "Fusion"
      case CustomBase => "Custom base"
      case Egg => "Egg sprite"
      case Triple => "Triple fusion"
      case Unknown => "Unknown"
    }

    predicate IsFusion() { this == Fusion }
    predicate IsCustomBase() { this == CustomBase }
    predicate IsEgg() { this == Egg }
    predicate IsTripleFusion() { this == Triple }
    predicate IsUnknown() { this == Unknown }

    /** How many dot-separated numbers an id of this type has in the
        patterns that read it from text: one for custom bases and eggs,
        three for triples, two for everything else (unknown included). */
    function ComponentCount(): (n: nat)
      ensures 1 <= n <= 3
      ensures n == 1 <==> (IsCustomBase() || IsEgg())
      ensures n == 3 <==> IsTripleFusion()
    {
      if IsCustomBase() || IsEgg() then 1 else if IsTripleFusion() then 3 else 2
    }
  }

  /** Exactly one of the five id-type predicates holds for every value. */
  lemma IdTypePredicatesExclusive(t: IdType)
    ensures (if t.IsFusion() then 1 else 0) + (if t.IsCustomBase() then 1 else 0)
          + (if t.IsEgg() then 1 else 0) + (if t.IsTripleFusion() then 1 else 0)
          + (if t.IsUnknown() then 1 else 0) == 1
  {
  }
}
