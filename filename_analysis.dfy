/*
 * The filename check of a sprite attachment (bot/core/filename_analysis.py):
 * which of the four anchored filename patterns a name matches, the record
 * built from it (the name without "SPOILER_", its dex ids and its letter),
 * and the filename recovered from a zigzag gallery URL.
 *
 * The patterns are written out by hand on positions of the string:
 *   `^` [`SPOILER_`] components [`_egg`] [a-z]? `.png` `$`
 * where a component is `DEX_ID` (`[1-9]\d{0,2}`) and `$` also matches
 * before a final newline, as Python's `$` does.
 */
module FilenameAnalysis {
  import opened Wrappers
  import opened Text
  import opened Enums
  import opened DexIds

  const Png := ".png"
  const EggMarker := "_egg"
  const SpoilerPrefix := "SPOILER_"

  // ---------------------------------------------------------------------
  // The patterns
  // ---------------------------------------------------------------------

  /** `\.png$` at `j`: ".png" ends the string, or is followed by a final newline. */
  predicate PngEndAt(s: string, j: nat) {
    OccursAt(s, Png, j) && (j + 4 == |s| || (j + 5 == |s| && s[j + 4] == '\n'))
  }

  /** `[a-z]{0,1}\.png$` at `j`. */
  predicate LetterAndPngAt(s: string, j: nat) {
    PngEndAt(s, j) || (j < |s| && IsLower(s[j]) && PngEndAt(s, j + 1))
  }

  /** `FILENAME_*_ID` matched from position `i` to the end. */
  predicate FilenameAt(s: string, i: nat, idType: IdType)
    requires i <= |s| && !idType.IsUnknown()
  {
    match ComponentsEnd(s, i, idType.ComponentCount())
    case None => false
    case Some(e) =>
      if idType.IsEgg() then OccursAt(s, EggMarker, e) && LetterAndPngAt(s, e + 4)
      else LetterAndPngAt(s, e)
  }

  /** `REGULAR_PATTERN_*_ID`. */
  predicate RegularMatch(s: string, idType: IdType)
    requires !idType.IsUnknown()
  {
    FilenameAt(s, 0, idType)
  }

  /** `SPOILER_PATTERN_*_ID`. */
  predicate SpoilerMatch(s: string, idType: IdType)
    requires !idType.IsUnknown()
  {
    StartsWith(s, SpoilerPrefix) && FilenameAt(s, |SpoilerPrefix|, idType)
  }

  /** Either pattern of a type, as `get_fusion_filename` tries them. */
  predicate Matches(s: string, idType: IdType)
    requires !idType.IsUnknown()
  {
    RegularMatch(s, idType) || SpoilerMatch(s, idType)
  }

  // ---------------------------------------------------------------------
  // The FusionFilename record
  // ---------------------------------------------------------------------

  /** What a filename was read as: the name without "SPOILER_", its type,
      the dex ids text and the letter. */
  datatype FusionFilename = FusionFilename(
    fullFilename: Option<string>,
    idType: IdType,
    dexIds: Option<string>,
    letter: Option<string>)
  {
    /** `id_and_letter`: the full filename without ".png", for a known type. */
    function IdAndLetter(): (r: Option<string>)
      ensures r.Some? <==> !idType.IsUnknown() && fullFilename.Some?
    {
      if idType.IsUnknown() || fullFilename.None? then None
      else Some(ReplaceAll(fullFilename.value, Png, ""))
    }
  }

  /** `remove_spoiler`: every "SPOILER_" removed; nothing for nothing. */
  function RemoveSpoiler(filename: Option<string>): (r: Option<string>)
    ensures r.Some? <==> filename.Some?
  {
    match filename
    case None => None
    case Some(f) => Some(ReplaceAll(f, SpoilerPrefix, ""))
  }

  /** `grab_letter`: the filename without "_egg", ".png" and the dex ids.
      Replacing the empty string by the empty string changes nothing. */
  function GrabLetter(filename: string, dexIds: string): string {
    var t := ReplaceAll(ReplaceAll(filename, EggMarker, ""), Png, "");
    if |dexIds| == 0 then t else ReplaceAll(t, dexIds, "")
  }

  /** `FusionFilename(filename, id_type)`. For a known type whose number
      pattern finds nothing, `grab_letter` is handed `None` and Python raises
      a `TypeError`. */
  function NewFusionFilename(filename: string, idType: IdType): (r: Result<FusionFilename>)
    ensures r.Ok? ==> r.value.idType == idType && r.value.fullFilename == RemoveSpoiler(Some(filename))
    ensures r.Ok? ==> (r.value.dexIds.None? <==> idType.IsUnknown())
    ensures r.Raised? <==> !idType.IsUnknown() && GetCleanDexIds(RemoveSpoiler(Some(filename)).value, idType).None?
  {
    var full := RemoveSpoiler(Some(filename)).value;
    if idType.IsUnknown() then Ok(FusionFilename(Some(full), idType, None, None))
    else
      match GetCleanDexIds(full, idType)
      case None => Raised("TypeError")
      case Some(d) => Ok(FusionFilename(Some(full), idType, Some(d), Some(GrabLetter(full, d))))
  }

  /** `get_fusion_filename`: the first type whose regular or spoiler pattern
      matches, tried in the order fusion, custom base, triple, egg. */
  function GetFusionFilename(filename: string): Result<FusionFilename> {
    if Matches(filename, IdType.Fusion) then NewFusionFilename(filename, IdType.Fusion)
    else if Matches(filename, IdType.CustomBase) then NewFusionFilename(filename, IdType.CustomBase)
    else if Matches(filename, IdType.Triple) then NewFusionFilename(filename, IdType.Triple)
    else if Matches(filename, IdType.Egg) then NewFusionFilename(filename, IdType.Egg)
    else NewFusionFilename("", IdType.Unknown)
  }

  /** `get_filename_from_zigzag_image_url`: the text before the first ".png",
      its last '/'-separated part, the first '_'-separated part of that,
      and ".png" again. */
  function GetFilenameFromZigzagImageUrl(url: string): (r: string)
    ensures |r| >= 4 && r[|r| - 4..] == Png
    ensures forall k :: 0 <= k < |r| - 4 ==> r[k] != '/' && r[k] != '_'
  {
    var path := Split(BeforeFirst(url, Png), '/');
    var last := path[|path| - 1];
    var id := Split(last, '_')[0];
    SplitPiecesFree(BeforeFirst(url, Png), '/');
    SplitPiecesFree(last, '_');
    assert forall k :: 0 <= k < |id| ==> id[k] != '/' by {
      forall k | 0 <= k < |id| ensures id[k] != '/' {
        SplitSubPiece(last, '_', k);
      }
    }
    assert (id + Png)[|id|..] == Png;
    id + Png
  }

  /** ".png" does not overlap itself. */
  lemma PngNoOverlap(s: string, i: int, j: int)
    requires OccursAt(s, Png, i) && OccursAt(s, Png, j) && i <= j < i + 4
    ensures i == j
  {
    assert Png[j - i] == s[i..i + 4][j - i] == s[j] == s[j..j + 4][0] == '.';
  }

  /** A zigzag gallery URL `<path>/<id>_<credit>.png<query>` reads back as
      "<id>.png" when nothing before the extension spells ".png", neither
      the id nor the credit holds a '/', and the id holds no '_'. */
  lemma ZigzagUrlRoundTrip(path: string, id: string, credit: string, query: string)
    requires !Contains(path + "/" + id + "_" + credit, Png)
    requires forall k :: 0 <= k < |id| ==> id[k] != '/' && id[k] != '_'
    requires forall k :: 0 <= k < |credit| ==> credit[k] != '/'
    ensures GetFilenameFromZigzagImageUrl(path + "/" + id + "_" + credit + Png + query) == id + Png
  {
    var name := id + "_" + credit;
    var before := path + "/" + id + "_" + credit;
    var url := before + Png + query;
    assert url == before + (Png + query);
    assert OccursAt(url, Png, |before|);
    forall i | 0 <= i < |before| ensures !OccursAt(url, Png, i) {
      if OccursAt(url, Png, i) {
        if i + 4 <= |before| {
          assert before[i..i + 4] == url[i..i + 4];
          assert OccursAt(before, Png, i);
        } else {
          PngNoOverlap(url, i, |before|);
          assert false;
        }
      }
    }
    assert BeforeFirst(url, Png) == before;
    assert forall k :: 0 <= k < |name| ==> name[k] != '/' by {
      forall k | 0 <= k < |name| ensures name[k] != '/' {
        if k > |id| { assert name[k] == credit[k - |id| - 1]; }
      }
    }
    assert before == path + ['/'] + name;
    SplitLast(path, name, '/');
    assert name == id + ['_'] + credit;
    SplitCons(id, credit, '_');
  }

  /** Characters of the first '_'-piece come from the string split. */
  lemma {:induction false} SplitSubPiece(s: string, sep: char, k: nat)
    requires k < |Split(s, sep)[0]|
    ensures k < |s| && Split(s, sep)[0][k] == s[k]
  {
    if |s| > 0 && s[0] != sep && k > 0 {
      SplitSubPiece(s[1..], sep, k - 1);
    }
  }

  // ---------------------------------------------------------------------
  // Well-formed sprite filenames and the round trip
  // ---------------------------------------------------------------------

  /** The parts a standard sprite filename is written from. */
  datatype SpriteName = SpriteName(
    spoiler: bool, idType: IdType, ids: seq<string>, letter: string, newline: bool)

  predicate WellFormed(n: SpriteName) {
    !n.idType.IsUnknown() && |n.ids| == n.idType.ComponentCount()
    && (forall k :: 0 <= k < |n.ids| ==> IsComponent(n.ids[k]))
    && |n.letter| <= 1 && (forall k :: 0 <= k < |n.letter| ==> IsLower(n.letter[k]))
  }

  function EggPart(n: SpriteName): string {
    if n.idType.IsEgg() then EggMarker else ""
  }

  function NewlinePart(n: SpriteName): string {
    if n.newline then "\n" else ""
  }

  /** Everything after the dex ids. */
  function Tail(n: SpriteName): string {
    EggPart(n) + n.letter + Png + NewlinePart(n)
  }

  /** The filename without its spoiler prefix. */
  function Body(n: SpriteName): string
    requires WellFormed(n)
  {
    Join(n.ids, '.') + Tail(n)
  }

  function Prefix(n: SpriteName): string {
    if n.spoiler then SpoilerPrefix else ""
  }

  function BuildFilename(n: SpriteName): string
    requires WellFormed(n)
  {
    Prefix(n) + Body(n)
  }

  predicate Lacks(s: string, c: char) {
    forall k :: 0 <= k < |s| ==> s[k] != c
  }

  lemma LacksAppend(a: string, b: string, c: char)
    requires Lacks(a, c) && Lacks(b, c)
    ensures Lacks(a + b, c)
  {
    forall k | 0 <= k < |a + b| ensures (a + b)[k] != c {
      if k >= |a| { assert (a + b)[k] == b[k - |a|]; }
    }
  }

  /** Every dot is followed by a digit. */
  predicate DotsBeforeDigits(a: string) {
    forall k :: 0 <= k < |a| && a[k] == '.' ==> k + 1 < |a| && IsDigit(a[k + 1])
  }

  lemma DotsBeforeDigitsAppend(a: string, b: string)
    requires DotsBeforeDigits(a) && Lacks(b, '.')
    ensures DotsBeforeDigits(a + b)
  {
    forall k | 0 <= k < |a + b| && (a + b)[k] == '.' ensures k + 1 < |a + b| && IsDigit((a + b)[k + 1]) {
      if k < |a| { assert (a + b)[k] == a[k]; }
    }
  }

  /** Where every dot is followed by a digit, ".png" cannot start. */
  lemma NoPngInside(a: string, b: string)
    requires DotsBeforeDigits(a)
    ensures forall i :: 0 <= i < |a| ==> !OccursAt(a + b, Png, i)
  {
    forall i | 0 <= i < |a| ensures !OccursAt(a + b, Png, i) {
      assert (a + b)[i] == a[i];
      if a[i] == '.' { assert (a + b)[i + 1] == a[i + 1]; }
    }
  }

  /** The dex ids text of a well-formed name: digits and dots, every dot
      followed by a digit, a digit first. */
  lemma IdsChars(n: SpriteName)
    requires WellFormed(n)
    ensures var j := Join(n.ids, '.');
      |j| > 0 && IsDigit(j[0]) && DotsBeforeDigits(j) && Lacks(j, '_') && Lacks(j, 'S')
      && (forall k :: 0 <= k < |j| ==> IsDigit(j[k]) || j[k] == '.')
  {
    JoinedComponentsChars(n.ids);
  }

  /** The letter and the newline hold no digit. */
  lemma LetterNewlineNoDigit(n: SpriteName)
    requires WellFormed(n)
    ensures forall k :: 0 <= k < |n.letter + NewlinePart(n)| ==> !IsDigit((n.letter + NewlinePart(n))[k])
  {
    var t := n.letter + NewlinePart(n);
    forall k | 0 <= k < |t| ensures !IsDigit(t[k]) {
      if k >= |n.letter| { assert t[k] == NewlinePart(n)[k - |n.letter|]; }
    }
  }

  /** A well-formed body holds no 'S', so removing "SPOILER_" leaves the body. */
  lemma RemoveSpoilerOfBuild(n: SpriteName)
    requires WellFormed(n)
    ensures RemoveSpoiler(Some(BuildFilename(n))) == Some(Body(n))
  {
    var b := Body(n);
    var j := Join(n.ids, '.');
    IdsChars(n);
    assert Lacks(Tail(n), 'S');
    LacksAppend(j, Tail(n), 'S');
    NoOccurrenceWithoutHead(b, [], SpoilerPrefix);
    assert b + [] == b;
    ReplaceAllAbsent(b, SpoilerPrefix, "");
    if n.spoiler {
      assert BuildFilename(n) == SpoilerPrefix + b;
      ReplaceAllLeading(b, SpoilerPrefix, "");
      assert "" + b == b;
    } else {
      assert BuildFilename(n) == b;
    }
  }

  /** `id_and_letter` of a well-formed body: everything but ".png". */
  lemma RemovePngOfBody(n: SpriteName)
    requires WellFormed(n)
    ensures ReplaceAll(Body(n), Png, "") == Join(n.ids, '.') + EggPart(n) + n.letter + NewlinePart(n)
  {
    var j := Join(n.ids, '.');
    var nl := NewlinePart(n);
    var a := j + EggPart(n) + n.letter;
    IdsChars(n);
    assert Lacks(EggPart(n) + n.letter, '.');
    DotsBeforeDigitsAppend(j, EggPart(n) + n.letter);
    assert a == j + (EggPart(n) + n.letter);
    assert Body(n) == a + (Png + nl);
    NoPngInside(a, Png + nl);
    ReplaceAllSkips(a, Png + nl, Png, "");
    ReplaceAllLeading(nl, Png, "");
  }

  /** Removing "_egg" from a well-formed body. */
  lemma RemoveEggOfBody(n: SpriteName)
    requires WellFormed(n)
    ensures ReplaceAll(Body(n), EggMarker, "") == Join(n.ids, '.') + (n.letter + Png + NewlinePart(n))
  {
    var j := Join(n.ids, '.');
    var rest := n.letter + Png + NewlinePart(n);
    var b := Body(n);
    IdsChars(n);
    assert Lacks(rest, '_');
    if n.idType.IsEgg() {
      assert b == j + (EggMarker + rest);
      RemoveEggBetween(b, j, rest);
    } else {
      assert b == j + rest;
      RemoveEggAbsent(b, j, rest);
    }
  }

  lemma RemoveEggBetween(s: string, j: string, rest: string)
    requires Lacks(j, '_') && Lacks(rest, '_') && s == j + (EggMarker + rest)
    ensures ReplaceAll(s, EggMarker, "") == j + rest
  {
    var t := EggMarker + rest;
    NoOccurrenceWithoutHead(j, t, EggMarker);
    ReplaceAllSkips(j, t, EggMarker, "");
    ReplaceAllLeading(rest, EggMarker, "");
    NoOccurrenceWithoutHead(rest, [], EggMarker);
    assert rest + [] == rest;
    ReplaceAllAbsent(rest, EggMarker, "");
    assert "" + rest == rest;
  }

  lemma RemoveEggAbsent(s: string, j: string, rest: string)
    requires Lacks(j, '_') && Lacks(rest, '_') && s == j + rest
    ensures ReplaceAll(s, EggMarker, "") == s
  {
    NoOccurrenceWithoutHead(j, rest, EggMarker);
    ReplaceAllSkips(j, rest, EggMarker, "");
    NoOccurrenceWithoutHead(rest, [], EggMarker);
    assert rest + [] == rest;
    ReplaceAllAbsent(rest, EggMarker, "");
  }

  /** Removing ".png" from the ids, letter, ".png" and newline. */
  lemma RemovePngAfterLetter(s: string, j: string, letter: string, nl: string)
    requires DotsBeforeDigits(j) && Lacks(letter, '.') && |nl| < 4
    requires s == j + (letter + Png + nl)
    ensures ReplaceAll(s, Png, "") == j + (letter + nl)
  {
    var x := j + letter;
    DotsBeforeDigitsAppend(j, letter);
    assert s == x + (Png + nl);
    NoPngInside(x, Png + nl);
    RemoveFinalPng(x, nl);
    assert x + nl == j + (letter + nl);
  }

  /** Removing ".png" where it is the only occurrence, before at most a short end. */
  lemma RemoveFinalPng(x: string, nl: string)
    requires |nl| < 4
    requires forall i :: 0 <= i < |x| ==> !OccursAt(x + (Png + nl), Png, i)
    ensures ReplaceAll(x + (Png + nl), Png, "") == x + nl
  {
    ReplaceAllSkips(x, Png + nl, Png, "");
    ReplaceAllLeading(nl, Png, "");
    ReplaceAllShort(nl, Png, "");
    assert "" + nl == nl;
  }

  /** Removing the ids from the ids followed by text without digits. */
  lemma RemoveLeadingIds(s: string, j: string, rest: string)
    requires |j| > 0 && IsDigit(j[0]) && forall k :: 0 <= k < |rest| ==> !IsDigit(rest[k])
    requires s == j + rest
    ensures ReplaceAll(s, j, "") == rest
  {
    ReplaceAllLeading(rest, j, "");
    NoOccurrenceWithoutHead(rest, [], j);
    assert rest + [] == rest;
    ReplaceAllAbsent(rest, j, "");
    assert "" + rest == rest;
  }

  /** `grab_letter` of a well-formed body with its own dex ids: the letter,
      and the final newline when there is one. */
  lemma GrabLetterOfBody(n: SpriteName)
    requires WellFormed(n)
    ensures GrabLetter(Body(n), Join(n.ids, '.')) == n.letter + NewlinePart(n)
  {
    var j := Join(n.ids, '.');
    var nl := NewlinePart(n);
    IdsChars(n);
    RemoveEggOfBody(n);
    var r1 := ReplaceAll(Body(n), EggMarker, "");
    assert Lacks(n.letter, '.');
    RemovePngAfterLetter(r1, j, n.letter, nl);
    var r2 := ReplaceAll(r1, Png, "");
    LetterNewlineNoDigit(n);
    RemoveLeadingIds(r2, j, n.letter + nl);
  }

  // ---------------------------------------------------------------------
  // Which pattern a body matches
  // ---------------------------------------------------------------------

  /** The body of `n` is written from `o` to the end of `s`. */
  predicate BodyAt(s: string, o: nat, n: SpriteName) {
    WellFormed(n)
    && OccursAt(s, Join(n.ids, '.'), o)
    && OccursAt(s, Tail(n), o + |Join(n.ids, '.')|)
    && o + |Join(n.ids, '.')| + |Tail(n)| == |s|
  }

  /** What follows the dex ids of a body. */
  lemma TailAt(s: string, e: nat, n: SpriteName)
    requires WellFormed(n) && OccursAt(s, Tail(n), e) && e + |Tail(n)| == |s|
    ensures e < |s| && !IsDigit(s[e])
    ensures s[e] == '.' ==> e + 1 < |s| && s[e + 1] == 'p'
    ensures n.idType.IsEgg() ==> s[e] == '_' && OccursAt(s, EggMarker, e) && LetterAndPngAt(s, e + 4)
    ensures !n.idType.IsEgg() ==> s[e] != '_' && LetterAndPngAt(s, e)
  {
    TailSplit(s, e, n);
    LetterAndPngFacts(s, e + |EggPart(n)|, n.letter);
    if n.idType.IsEgg() {
      OccursAtChar(s, EggMarker, e, 0);
    }
  }

  /** The three parts of a tail, each where it was written. */
  lemma TailSplit(s: string, e: nat, n: SpriteName)
    requires OccursAt(s, Tail(n), e) && e + |Tail(n)| == |s|
    ensures OccursAt(s, EggPart(n), e) && OccursAt(s, n.letter, e + |EggPart(n)|)
    ensures PngEndAt(s, e + |EggPart(n)| + |n.letter|)
  {
    var eg := EggPart(n);
    var l := n.letter;
    var nl := NewlinePart(n);
    OccursAtConcat(s, eg + l + Png, nl, e);
    OccursAtConcat(s, eg + l, Png, e);
    OccursAtConcat(s, eg, l, e);
    if n.newline {
      OccursAtChar(s, nl, e + |eg| + |l| + 4, 0);
    }
  }

  /** An optional lower-case letter then `.png$` at `j`. */
  lemma LetterAndPngFacts(s: string, j: nat, l: string)
    requires |l| <= 1 && (forall k :: 0 <= k < |l| ==> IsLower(l[k]))
    requires OccursAt(s, l, j) && PngEndAt(s, j + |l|)
    ensures LetterAndPngAt(s, j) && j < |s| && !IsDigit(s[j]) && s[j] != '_'
    ensures s[j] == '.' ==> j + 1 < |s| && s[j + 1] == 'p'
  {
    OccursAtChar(s, Png, j + |l|, 0);
    OccursAtChar(s, Png, j + |l|, 1);
    if |l| == 1 {
      OccursAtChar(s, l, j, 0);
    }
  }

  /** Neither `[a-z]?\.png$` nor `_egg` starts at a dot followed by a digit. */
  lemma NoEndAtDotDigit(s: string, e: nat)
    requires e + 1 < |s| && s[e] == '.' && IsDigit(s[e + 1])
    ensures !LetterAndPngAt(s, e) && !OccursAt(s, EggMarker, e)
  {
    if PngEndAt(s, e) {
      OccursAtChar(s, Png, e, 1);
    }
    if OccursAt(s, EggMarker, e) {
      OccursAtChar(s, EggMarker, e, 0);
    }
  }

  /** No component starts at a non-digit. */
  lemma NoComponentsAtNonDigit(s: string, i: nat, count: nat)
    requires i < |s| && !IsDigit(s[i]) && count >= 1
    ensures ComponentsEnd(s, i, count).None?
  {
    assert DigitRun(s, i) == 0;
  }

  /** A body matches the pattern of its own type, and of no other. */
  lemma BodyMatchesOnlyOwnType(s: string, o: nat, n: SpriteName, t: IdType)
    requires BodyAt(s, o, n) && !t.IsUnknown()
    ensures FilenameAt(s, o, t) <==> t == n.idType
  {
    var c := n.idType.ComponentCount();
    var ct := t.ComponentCount();
    if ct == c {
      SameCountMatch(s, o, n, t);
    } else if ct < c {
      FewerComponentsNoMatch(s, o, n, t);
    } else {
      MoreComponentsNoMatch(s, o, n, t);
    }
  }

  lemma SameCountMatch(s: string, o: nat, n: SpriteName, t: IdType)
    requires BodyAt(s, o, n) && !t.IsUnknown() && t.ComponentCount() == n.idType.ComponentCount()
    ensures FilenameAt(s, o, t) <==> t == n.idType
  {
    var e := o + |Join(n.ids, '.')|;
    ComponentsEndJoin(s, o, n.ids, |n.ids|);
    assert ComponentsEnd(s, o, t.ComponentCount()) == Some(e);
    TailDecides(s, e, n, t);
  }

  /** After the dex ids of a body, the rest of a pattern of the same count
      matches exactly for the body's own type. */
  lemma TailDecides(s: string, e: nat, n: SpriteName, t: IdType)
    requires WellFormed(n) && OccursAt(s, Tail(n), e) && e + |Tail(n)| == |s|
    requires !t.IsUnknown() && t.ComponentCount() == n.idType.ComponentCount()
    ensures (if t.IsEgg() then OccursAt(s, EggMarker, e) && LetterAndPngAt(s, e + 4)
             else LetterAndPngAt(s, e)) <==> t == n.idType
  {
    TailAt(s, e, n);
    if PngEndAt(s, e) {
      OccursAtChar(s, Png, e, 0);
    }
    if OccursAt(s, EggMarker, e) {
      OccursAtChar(s, EggMarker, e, 0);
    }
  }

  lemma FewerComponentsNoMatch(s: string, o: nat, n: SpriteName, t: IdType)
    requires BodyAt(s, o, n) && !t.IsUnknown() && t.ComponentCount() < n.idType.ComponentCount()
    ensures !FilenameAt(s, o, t)
  {
    var e := o + |Join(n.ids, '.')|;
    TailAt(s, e, n);
    ComponentsEndJoin(s, o, n.ids, t.ComponentCount());
    NoEndAtDotDigit(s, ComponentsEnd(s, o, t.ComponentCount()).value);
  }

  lemma MoreComponentsNoMatch(s: string, o: nat, n: SpriteName, t: IdType)
    requires BodyAt(s, o, n) && !t.IsUnknown() && t.ComponentCount() > n.idType.ComponentCount()
    ensures !FilenameAt(s, o, t)
  {
    var e := o + |Join(n.ids, '.')|;
    var c := n.idType.ComponentCount();
    var ct := t.ComponentCount();
    TailAt(s, e, n);
    ComponentsEndJoin(s, o, n.ids, c);
    ComponentsEndSplit(s, o, c, ct - c);
    if s[e] == '.' {
      NoComponentsAtNonDigit(s, e + 1, ct - c);
    }
  }

  /** The name a pattern match was written from. */
  ghost function NameAt(s: string, o: nat, t: IdType, spoiler: bool): (n: SpriteName)
    requires o <= |s| && !t.IsUnknown() && FilenameAt(s, o, t)
    ensures n.idType == t && n.spoiler == spoiler && BodyAt(s, o, n)
  {
    NameOfIsBody(s, o, t, spoiler);
    NameOf(s, o, t, spoiler)
  }

  /** The parts read from a pattern match: the dex ids, the letter when one
      stands before ".png", and whether a final newline follows. */
  ghost function NameOf(s: string, o: nat, t: IdType, spoiler: bool): SpriteName
    requires o <= |s| && !t.IsUnknown() && FilenameAt(s, o, t)
  {
    var count := t.ComponentCount();
    var e := ComponentsEnd(s, o, count).value;
    var j := if t.IsEgg() then e + 4 else e;
    var letter := LetterBefore(s, j);
    SpriteName(spoiler, t, ComponentsOf(s, o, count), letter, j + |letter| + 5 == |s|)
  }

  /** The optional letter `[a-z]?` of a match at `j`: there is one unless
      ".png" starts at `j`. */
  function LetterBefore(s: string, j: nat): string {
    if j < |s| && !PngEndAt(s, j) then [s[j]] else ""
  }

  lemma NameOfIsBody(s: string, o: nat, t: IdType, spoiler: bool)
    requires o <= |s| && !t.IsUnknown() && FilenameAt(s, o, t)
    ensures var n := NameOf(s, o, t, spoiler);
      n.idType == t && n.spoiler == spoiler && BodyAt(s, o, n)
  {
    var count := t.ComponentCount();
    var n := NameOf(s, o, t, spoiler);
    var e := ComponentsEnd(s, o, count).value;
    TailOfName(s, o, t, spoiler);
    JoinComponentsOf(s, o, count);
    BodyAtOfParts(s, o, n);
  }

  /** The tail of the name read is what follows its dex ids. */
  lemma TailOfName(s: string, o: nat, t: IdType, spoiler: bool)
    requires o <= |s| && !t.IsUnknown() && FilenameAt(s, o, t)
    ensures var n := NameOf(s, o, t, spoiler);
      var e := ComponentsEnd(s, o, t.ComponentCount()).value;
      OccursAt(s, Tail(n), e) && e + |Tail(n)| == |s|
      && |n.letter| <= 1 && forall k :: 0 <= k < |n.letter| ==> IsLower(n.letter[k])
  {
    var n := NameOf(s, o, t, spoiler);
    FilenameAtTail(s, o, t);
    TailOccurs(s, ComponentsEnd(s, o, t.ComponentCount()).value, n);
  }

  /** What `FilenameAt` sees after the dex ids. */
  lemma FilenameAtTail(s: string, o: nat, t: IdType)
    requires o <= |s| && !t.IsUnknown() && FilenameAt(s, o, t)
    ensures ComponentsEnd(s, o, t.ComponentCount()).Some?
    ensures var e := ComponentsEnd(s, o, t.ComponentCount()).value;
      if t.IsEgg() then OccursAt(s, EggMarker, e) && LetterAndPngAt(s, e + 4) else LetterAndPngAt(s, e)
  {
  }

  /** The parts of a body, each where it belongs, make a body. */
  lemma BodyAtOfParts(s: string, o: nat, n: SpriteName)
    requires !n.idType.IsUnknown() && |n.ids| == n.idType.ComponentCount()
    requires forall k :: 0 <= k < |n.ids| ==> IsComponent(n.ids[k])
    requires |n.letter| <= 1 && forall k :: 0 <= k < |n.letter| ==> IsLower(n.letter[k])
    requires OccursAt(s, Join(n.ids, '.'), o)
    requires OccursAt(s, Tail(n), o + |Join(n.ids, '.')|) && o + |Join(n.ids, '.')| + |Tail(n)| == |s|
    ensures BodyAt(s, o, n)
  {
  }

  /** The tail the pattern saw after the dex ids is the tail of the name read. */
  lemma TailOccurs(s: string, e: nat, n: SpriteName)
    requires e <= |s|
    requires if n.idType.IsEgg() then OccursAt(s, EggMarker, e) && LetterAndPngAt(s, e + 4) else LetterAndPngAt(s, e)
    requires var j := e + |EggPart(n)|;
      n.letter == LetterBefore(s, j) && n.newline == (j + |n.letter| + 5 == |s|)
    ensures OccursAt(s, Tail(n), e) && e + |Tail(n)| == |s|
    ensures |n.letter| <= 1 && forall k :: 0 <= k < |n.letter| ==> IsLower(n.letter[k])
  {
    var j := e + |EggPart(n)|;
    if |n.letter| == 1 {
      assert s[j..j + 1] == [s[j]];
    }
    assert OccursAt(s, EggPart(n), e);
    TailJoin(s, e, n);
  }

  /** A tail is where its three parts are. */
  lemma TailJoin(s: string, e: nat, n: SpriteName)
    requires OccursAt(s, EggPart(n), e) && OccursAt(s, n.letter, e + |EggPart(n)|)
    requires var p := e + |EggPart(n)| + |n.letter|;
      PngEndAt(s, p) && n.newline == (p + 5 == |s|)
    ensures OccursAt(s, Tail(n), e) && e + |Tail(n)| == |s|
  {
    var eg := EggPart(n);
    var l := n.letter;
    var nl := NewlinePart(n);
    var p := e + |eg| + |l|;
    if n.newline {
      assert s[p + 4..p + 5] == [s[p + 4]];
    }
    assert OccursAt(s, nl, p + 4);
    OccursAtConcat(s, eg, l, e);
    OccursAtConcat(s, eg + l, Png, e);
    OccursAtConcat(s, eg + l + Png, nl, e);
  }

  /** A built filename holds its body after its prefix. */
  lemma BuildIsBodyAt(n: SpriteName)
    requires WellFormed(n)
    ensures BodyAt(BuildFilename(n), |Prefix(n)|, n)
  {
    var j := Join(n.ids, '.');
    assert BuildFilename(n) == Prefix(n) + j + Tail(n);
    OccursInConcat(Prefix(n), j, Tail(n));
    assert BuildFilename(n) == (Prefix(n) + j) + Tail(n) + [];
    OccursInConcat(Prefix(n) + j, Tail(n), []);
  }

  /** A body after the prefix of its name is the built filename. */
  lemma BodyAtIsBuild(s: string, n: SpriteName)
    requires BodyAt(s, |Prefix(n)|, n) && StartsWith(s, Prefix(n))
    ensures s == BuildFilename(n)
  {
    var o := |Prefix(n)|;
    var j := Join(n.ids, '.');
    OccursAtConcat(s, j, Tail(n), o);
    assert s[..o] == s[0..o];
    OccursAtConcat(s, Prefix(n), Body(n), 0);
    OccursWhole(s, Prefix(n) + Body(n));
  }

  /** A built filename matches the patterns of its own type, and of no other. */
  lemma MatchesBuild(n: SpriteName, t: IdType)
    requires WellFormed(n) && !t.IsUnknown()
    ensures Matches(BuildFilename(n), t) <==> t == n.idType
  {
    var s := BuildFilename(n);
    BuildIsBodyAt(n);
    BodyMatchesOnlyOwnType(s, |Prefix(n)|, n, t);
    BuildStart(n);
    if n.spoiler {
      NoComponentsAtNonDigit(s, 0, t.ComponentCount());
    }
  }

  /** A built filename starts with "SPOILER_" exactly when it is a spoiler;
      otherwise it starts with a digit. */
  lemma BuildStart(n: SpriteName)
    requires WellFormed(n)
    ensures var s := BuildFilename(n);
      |s| > 0 && (StartsWith(s, SpoilerPrefix) <==> n.spoiler) && (n.spoiler <==> !IsDigit(s[0]))
  {
    var s := BuildFilename(n);
    var j := Join(n.ids, '.');
    IdsChars(n);
    if n.spoiler {
      assert s == SpoilerPrefix + Body(n);
      assert s[..8] == SpoilerPrefix;
    } else {
      assert s == j + Tail(n);
      assert s[0] == j[0];
    }
  }

  /** The number pattern finds exactly the dex ids of a body. */
  lemma CleanIdsOfBody(n: SpriteName)
    requires WellFormed(n)
    ensures GetCleanDexIds(Body(n), n.idType) == Some(Join(n.ids, '.'))
  {
    var plain := n.(spoiler := false);
    assert BuildFilename(plain) == Body(n);
    CleanIdsOfBuild(plain);
  }

  /** The number pattern finds exactly the dex ids of a built filename: it
      passes over the "SPOILER_" prefix, which holds no digit. */
  lemma CleanIdsOfBuild(n: SpriteName)
    requires WellFormed(n)
    ensures GetCleanDexIds(BuildFilename(n), n.idType) == Some(Join(n.ids, '.'))
  {
    var s := BuildFilename(n);
    var j := Join(n.ids, '.');
    var o := |Prefix(n)|;
    var count := n.idType.ComponentCount();
    BuildIsBodyAt(n);
    TailAt(s, o + |j|, n);
    ComponentsEndJoin(s, o, n.ids, count);
    LeadImpliesSearch(s, o, count);
    if n.spoiler {
      BuildStart(n);
      SpoilerHoldsNoId(s, count);
    }
    CleanAt(s, n.idType, o, o + |j|);
    assert s[o..o + |j|] == j;
  }

  /** The number pattern matches nowhere inside a leading "SPOILER_". */
  lemma SpoilerHoldsNoId(s: string, count: nat)
    requires StartsWith(s, SpoilerPrefix) && count >= 1
    ensures forall p :: 0 <= p < |SpoilerPrefix| ==> SearchEnd(s, p, count).None?
  {
    forall p | 0 <= p < |SpoilerPrefix| ensures SearchEnd(s, p, count).None? {
      assert s[p] == s[..8][p] == SpoilerPrefix[p];
      NoSearchAtNonDigit(s, p, count);
    }
  }

  /** Where the number pattern first matches at `o`, cleaning gives the text
      it matched. */
  lemma CleanAt(s: string, idType: IdType, o: nat, e: nat)
    requires o <= |s| && (forall p :: 0 <= p < o ==> SearchEnd(s, p, idType.ComponentCount()).None?)
    requires SearchEnd(s, o, idType.ComponentCount()) == Some(e)
    ensures GetCleanDexIds(s, idType) == Some(s[o..e])
  {
    var count := idType.ComponentCount();
    SearchFromSkip(s, count, 0, o);
  }

  /** Reading a well-formed sprite filename gives back its parts: the name
      without "SPOILER_", its type, its dex ids, its letter (with the final
      newline `$` let through), and `id_and_letter` without ".png". */
  lemma GetFusionFilenameOfBuild(n: SpriteName)
    requires WellFormed(n)
    ensures GetFusionFilename(BuildFilename(n))
      == Ok(FusionFilename(Some(Body(n)), n.idType, Some(Join(n.ids, '.')), Some(n.letter + NewlinePart(n))))
    ensures GetFusionFilename(BuildFilename(n)).value.IdAndLetter()
      == Some(Join(n.ids, '.') + EggPart(n) + n.letter + NewlinePart(n))
  {
    var s := BuildFilename(n);
    MatchesBuild(n, IdType.Fusion);
    MatchesBuild(n, IdType.CustomBase);
    MatchesBuild(n, IdType.Triple);
    MatchesBuild(n, IdType.Egg);
    RemoveSpoilerOfBuild(n);
    CleanIdsOfBody(n);
    GrabLetterOfBody(n);
    RemovePngOfBody(n);
  }

  /** Every filename is read without raising: as a well-formed sprite
      filename when it is one, and otherwise as the unknown record. */
  lemma GetFusionFilenameCases(s: string)
    ensures GetFusionFilename(s).Ok?
    ensures GetFusionFilename(s).value.idType.IsUnknown()
      <==> forall n: SpriteName | WellFormed(n) :: BuildFilename(n) != s
    ensures GetFusionFilename(s).value.idType.IsUnknown()
      ==> GetFusionFilename(s).value == FusionFilename(Some(""), IdType.Unknown, None, None)
  {
    var types := [IdType.Fusion, IdType.CustomBase, IdType.Triple, IdType.Egg];
    if t :| t in types && Matches(s, t) {
      var spoiler := !RegularMatch(s, t);
      var n := NameAt(s, if spoiler then |SpoilerPrefix| else 0, t, spoiler);
      BodyAtIsBuild(s, n);
      GetFusionFilenameOfBuild(n);
    } else {
      forall n: SpriteName | WellFormed(n) ensures BuildFilename(n) != s {
        MatchesBuild(n, n.idType);
      }
      ReplaceAllShort("", SpoilerPrefix, "");
    }
  }
}
