# Fusion sprite checks, modelled in Dafny

This project models the sprite-checking core of a chat bot that reviews
Pokémon Infinite Fusion sprites posted to a community server. A sprite is a
PNG attachment named after its dex ids: `102.463a.png` is the fusion of head
102 and body 463, variant `a`. Other forms are the custom base `25.png`, the
triple fusion `1.2.3.png` and the egg `25_egg.png`, each of which may carry a
`SPOILER_` prefix. For each post the bot builds an *analysis record*.
Stages fill it with an ordered list of *findings* and one *severity*: accepted,
controversial, refused or ignored.

The model covers these parts:

- **Filename reading.** `FilenameAnalysis` and `DexIds` hand-code the anchored
  filename patterns as string recognisers. They also model the clean-id
  extraction, the letter extraction, the dex-range checks and the scan of the
  message text for parenthesised ids. The older flat-layout helpers, which use
  a different dex limit, are in `LegacyUtils`.
- **Reconciliation of the filename id with the ids in the message text.**
  `ContentAnalysis` models the decision tree that adds the mismatch,
  missing-filename, unknown-sprite, out-of-dex and name findings and sets the
  fusion id.
- **The sprite checks.** `SpriteAnalysis`, `Palette` and `PixelScans` model
  these stages:
  - the format and size checks;
  - the palette filter;
  - the colour-count and colour-similarity thresholds;
  - the semi-transparency scan, which paints a highlight raster;
  - the two-pass half-pixel scan over a grid of `step` × `step` blocks.

  The scans work on `array2` pixel buffers and write fresh highlight arrays in
  nested loops. Each loop is proved against a specification function of the
  input pixels.
- **The records and routing predicates.** The findings list (`Issues`), the
  enumerations (`Enums`), the analysis record and its report (`AnalysisRecord`),
  the `/similar` command helpers (`CommandActions`) and the message-routing
  predicates (`MessageIdentifier`).

The central invariant is that a stage only ever raises the severity. It either
keeps it, sets it to refused, or sets it to controversial when it is not
already refused. Findings are only appended. The model proves this stage by
stage and for the whole pipeline (`Enums.Raised`, `SpriteAnalysis.Grew`).

Inputs the model takes as parameters:

- The decoded image is given as an `array2<Color>` of palette indices or
  channel tuples.
- `getcolors` is given as an `Option` of (count, colour) entries.
- The image format and the encoder's `Software` tag are given as strings.
- The perceptual colour distances (CIEDE2000 and CMC l:c) are given as a
  function parameter returning integers.
- The id-to-name map is a `map<string, string>` parameter.
- The configured channel and bot ids are a `Config` record.

## Model

| member | source | states |
|---|---|---|
| Enums.RaisedTransitive | bot/analysis_sprite.py:130-177 | two stages that each only raise the severity, run one after the other, only raise it |
| Enums.RaisedKeepsRefused | bot/analysis_sprite.py:160-177 | no stage lowers `refused`: after a raise from refused the verdict is still refused |
| Enums.Rank | bot/misc/enums.py:35-39 | the ordered tiers accepted < controversial < refused, with rank 0 exactly for accepted and 2 exactly for refused |
| Enums.RaisedIsMonotonic | bot/misc/enums.py:35-39 | a raise never moves down the ordered tiers and never reaches `ignored` |
| Enums.AnalysisTypePartition | bot/misc/enums.py:53-77 | exactly one of sprite gallery, assets gallery and reply holds for each analysis type; gallery iff not reply; a zigzag post is a gallery post; reply iff ping reply or automatic spritework |
| Enums.WarnSeverityIffNotAccepted | bot/misc/enums.py:41-42 | `is_warn_severity` holds exactly for the severities other than accepted |
| Enums.IdType.ComponentCount | bot/misc/utils.py:77-107 | the number of dot-separated numbers the type's patterns read: 1 exactly for custom base and egg, 3 exactly for triple, otherwise 2 (unknown included) |
| Enums.IdTypePredicatesExclusive | bot/misc/enums.py:87-100 | exactly one of the five id-type predicates holds for every id type |
| Enums.Severity.IsWarnSeverity | bot/misc/enums.py:41-42 | `is_warn_severity`: by definition every severity but accepted; `Enums.WarnSeverityIffNotAccepted` states the equivalence |
| Issues.SeverityTags | bot/core/issues.py:217-236 | `SimilarityExcessControversial` carries refused and `SimilarityExcessRefused` carries controversial, as written; half pixels are refused, a misplaced grid is controversial; exactly the missing-sprite and unknown-sprite findings are tagged ignored |
| Issues.DifferentSpriteNamesBoth | bot/core/issues.py:32-41 | the mismatch finding's text names the filename id and the content id, each in parentheses |
| Issues.RenderedAppend | bot/core/issues.py:18-22 | rendering a list is the rendering of its parts one after the other, and the empty list renders as "" |
| Issues.HasKindAppend | bot/core/issues.py:27-28 | after findings are appended, a kind is present exactly when it was present before or is among the new findings |
| Issues.Issues.constructor | bot/core/issues.py:15-16 | a new findings list is empty |
| Issues.Issues.Add | bot/core/issues.py:24-25 | appends at the end, keeps the earlier entries, keeps every kind that was present, and makes the new finding's kind present |
| Issues.Issues.ToString | bot/core/issues.py:18-22 | the loop builds the concatenation of `- **finding**\n` over the list in order |
| Issues.Render | bot/core/issues.py:4-287 | `str()` of each finding class: by definition the class's description, followed by the fields its `__str__` formats; `Issues.DifferentSpriteNamesBoth` states the mismatch text |
| Issues.Rendered | bot/core/issues.py:18-22 | `str(issues)`: by definition the `- **finding**\n` lines in list order; `Issues.RenderedAppend` and `Issues.Issues.ToString` state its properties |
| Issues.HasKind | bot/core/issues.py:27-28 | `has_issue`: by definition some finding in the list is of the kind; `Issues.HasKindAppend` states how appends change it |
| Issues.Issues.HasIssue | bot/core/issues.py:27-28 | `has_issue` on the object: by definition `HasKind` of its list |
| DexIds.DigitRun | bot/misc/utils.py:17 | the length of the maximal digit run at a position: what follows it is not a digit |
| DexIds.SearchFrom | bot/misc/utils.py:104-107 | `re.search`: the leftmost position where the number pattern matches, no match at any earlier position, and no match anywhere when it returns nothing |
| DexIds.SearchEndIsDexId | bot/misc/utils.py:17-27 | every text the number pattern matches is a dot-separated id whose parts are 1-3 digits without a leading zero |
| DexIds.GetCleanDexIds | bot/misc/utils.py:96-107 | the result is a well-formed id of the type's component count, and it is missing exactly when the pattern matches nowhere |
| DexIds.TextMatchEnd | bot/misc/utils.py:30-34 | a text-pattern match starts with `(` and spans at least three characters |
| DexIds.FindAll | bot/misc/utils.py:89-90 | `re.finditer`: the matches lie in the text, each is a text-pattern match, and they come in text order without overlap |
| DexIds.FindAllComplete | bot/misc/utils.py:89-90 | every position where the text pattern matches is reported by the scan |
| DexIds.CleanOfTextMatch | bot/misc/utils.py:89-92 | cleaning a text match with the same type's number pattern gives the id written inside the parentheses |
| DexIds.ContentIds | bot/misc/utils.py:77-93 | one id per text match, each a well-formed id of the type's component count |
| DexIds.ExtractFusionIdsFromContent | bot/misc/utils.py:77-93 | the loop collects exactly the cleaned id of every text match, in text order |
| DexIds.FusionIdParts | bot/misc/utils.py:51-55 | the parts checked are the dot-split of the id, and an id without a dot is one part |
| DexIds.AnyAbove | bot/misc/utils.py:56-60 | the loop with early return is true exactly when some part, read as a number, exceeds the limit |
| DexIds.SplitJoinNumbers | bot/misc/utils.py:51-55 | splitting an id written from numbers gives back their numerals |
| DexIds.InvalidFusionIdOfNumbers | bot/misc/utils.py:51-65 | an id is out of the dex exactly when one of its numbers exceeds 572; for one number it agrees with `is_invalid_base_id` |
| DexIds.MissingAutogenOfPair | bot/misc/utils.py:41-48 | for "head.body" the autogen sprite is missing exactly when body = 450, head > 501 or body > 501 |
| DexIds.IsInvalidFusionId | bot/misc/utils.py:51-60 | `is_invalid_fusion_id`: by definition some dot-separated part exceeds 572; `DexIds.InvalidFusionIdOfNumbers` states it over the numbers |
| DexIds.IsInvalidBaseId | bot/misc/utils.py:63-65 | `is_invalid_base_id`: by definition the number exceeds 572; `DexIds.InvalidFusionIdOfNumbers` states that it agrees with the fusion check on one number |
| DexIds.IsMissingAutogen | bot/misc/utils.py:41-48 | `is_missing_autogen`: by definition body 450, or head or body past 501; `DexIds.MissingAutogenOfPair` states it over the two numbers |
| DexIds.IsChatGptInFilename | bot/misc/utils.py:72-74 | `is_chat_gpt_in_filename`: by definition a case-sensitive "ChatGPT" prefix; `AnalysisRecord.SuspicionBumpSpec` states its effect |
| DexIds.AttachmentNotAnImage | bot/misc/utils.py:129-133 | `attachment_not_an_image`: by definition the content type is missing or does not start with "image" |
| DexIds.AttachmentNotAnImageSpec | bot/misc/utils.py:129-133 | a missing content type is not an image; a present one is an image exactly when it is "image" followed by any text |
| FilenameAnalysis.FusionFilename.IdAndLetter | bot/core/filename_analysis.py:41-44 | there is a result exactly for a known type with a filename |
| FilenameAnalysis.RemoveSpoiler | bot/core/filename_analysis.py:47-50 | maps nothing to nothing and a filename to a filename |
| FilenameAnalysis.NewFusionFilename | bot/core/filename_analysis.py:31-39 | the record keeps the type and the spoiler-free filename; dex ids are missing exactly for the unknown type; construction fails exactly when a known type's number pattern finds no id |
| FilenameAnalysis.GetFilenameFromZigzagImageUrl | bot/core/filename_analysis.py:102-106 | the result always ends in ".png", and the part before that holds no '/' and no '_' |
| FilenameAnalysis.ZigzagUrlRoundTrip | bot/core/filename_analysis.py:102-106 | a URL `<path>/<id>_<credit>.png<query>` reads back as "<id>.png" when nothing before the extension spells ".png", the id and credit hold no '/', and the id holds no '_' |
| FilenameAnalysis.RemoveSpoilerOfBuild | bot/core/filename_analysis.py:47-50 | removing "SPOILER_" from a well-formed filename leaves exactly its body |
| FilenameAnalysis.RemovePngOfBody | bot/core/filename_analysis.py:41-44 | `id_and_letter` of a well-formed body is its ids, egg marker, letter and trailing newline, without ".png" |
| FilenameAnalysis.GrabLetterOfBody | bot/core/filename_analysis.py:53-58 | `grab_letter` of a well-formed body returns exactly its letter (and the final newline `$` admits) |
| FilenameAnalysis.BodyMatchesOnlyOwnType | bot/core/filename_analysis.py:6-23 | a well-formed body matches the filename pattern of its own type and of no other |
| FilenameAnalysis.FewerComponentsNoMatch | bot/core/filename_analysis.py:8-10 | a pattern with fewer components than the body has does not match it |
| FilenameAnalysis.MoreComponentsNoMatch | bot/core/filename_analysis.py:8-10 | a pattern with more components than the body has does not match it |
| FilenameAnalysis.MatchesBuild | bot/core/filename_analysis.py:13-23 | a built filename matches the regular or spoiler pattern of a type exactly when that is its own type |
| FilenameAnalysis.BuildStart | bot/core/filename_analysis.py:13-23 | a built filename starts with "SPOILER_" exactly when it is a spoiler, and otherwise starts with a digit |
| FilenameAnalysis.SpoilerHoldsNoId | bot/misc/utils.py:96-107 | the number pattern matches nowhere inside a leading "SPOILER_" |
| FilenameAnalysis.CleanIdsOfBuild | bot/core/filename_analysis.py:38-39 | the clean dex ids of a well-formed filename, spoiler or not, are exactly its ids joined by dots |
| FilenameAnalysis.GetFusionFilenameOfBuild | bot/core/filename_analysis.py:61-99 | reading a well-formed filename gives back its parts: body, type, ids and letter; `id_and_letter` is the body without ".png" |
| FilenameAnalysis.GetFusionFilenameCases | bot/core/filename_analysis.py:61-99 | reading never fails; the type is unknown exactly when no well-formed sprite name spells the filename, and then the record is `FusionFilename("", unknown)` |
| FilenameAnalysis.GrabLetter | bot/core/filename_analysis.py:53-58 | `grab_letter`: by definition the filename with "_egg", ".png" and the dex ids removed; `FilenameAnalysis.GrabLetterOfBody` states that a well-formed body gives back its letter |
| FilenameAnalysis.GetFusionFilename | bot/core/filename_analysis.py:61-99 | `get_fusion_filename`: by definition the first type of fusion, custom base, triple and egg whose plain or spoiler pattern matches; `FilenameAnalysis.GetFusionFilenameOfBuild` and `FilenameAnalysis.GetFusionFilenameCases` state its round trip and its cases |
| LegacyUtils.LimitsDisagreeOn573 | bot/utils.py:74-80 | every id out of the dex here is out of the dex in the newer helpers, and the two disagree exactly on ids whose largest number is 573 |
| LegacyUtils.Dex573Example | bot/utils.py:12 | "573.1" is accepted by this file's check and out of the dex for the newer one |
| LegacyUtils.MatchText | bot/utils.py:92-130 | the text `re.match` returns is a prefix of the filename |
| LegacyUtils.MatchTextOfBuild | bot/utils.py:92-130 | for a well-formed filename the matched text is the filename without a final newline |
| LegacyUtils.GetFusionIdFromFilenameOfBuild | bot/utils.py:92-130 | a well-formed filename reads as its ids joined by dots and its own type |
| LegacyUtils.LegacyAgreesWithFusionFilename | bot/utils.py:92-171 | the legacy reader and the `FusionFilename` reader agree on the type and the dex ids of every filename |
| LegacyUtils.ExtractFusionIdsFromContent | bot/utils.py:138-156 | nothing for the unknown type; otherwise the cleaned id of every text match, in text order |
| LegacyUtils.GluedPhraseDoesNotCount | bot/utils.py:181-186 | the phrase glued to a preceding word character does not match |
| LegacyUtils.PhraseFoundAt | bot/utils.py:181-186 | "intentional transparency" standing as words of their own anywhere in the text is recognised |
| LegacyUtils.IntendedTransparencyExample | bot/utils.py:181-186 | "Intended  transparency." is recognised: case is ignored and any run of white space separates the words |
| LegacyUtils.NoPhraseWithoutI | bot/utils.py:181-186 | no match starts at a letter other than i/I |
| LegacyUtils.NoPhraseAfterIO | bot/utils.py:181-186 | no match starts where "io" stands |
| LegacyUtils.UnintentionalTransparencyExample | bot/utils.py:181-186 | "unintentional transparency" is not recognised |
| LegacyUtils.IsInvalidFusionId | bot/utils.py:74-80 | `is_invalid_fusion_id` with the 573 limit: by definition some part exceeds 573; `LegacyUtils.LimitsDisagreeOn573` compares it with the newer check |
| LegacyUtils.GetFusionIdFromFilename | bot/utils.py:92-130 | `get_fusion_id_from_filename`: by definition the first matching type's ids, or `(None, unknown)`; `LegacyUtils.GetFusionIdFromFilenameOfBuild` and `LegacyUtils.LegacyAgreesWithFusionFilename` state its results |
| LegacyUtils.TransparencyPhraseAt | bot/utils.py:185 | the case-insensitive pattern matched at a position: a word boundary, "intentional" or "intended", white space, then "transparency" and a word boundary; the phrase lemmas above state what it accepts and rejects |
| LegacyUtils.IsIntentionalTransparency | bot/utils.py:181-186 | `is_intentional_transparency`: by definition non-empty content in which the phrase matches somewhere; `LegacyUtils.PhraseFoundAt` and the example lemmas state what it accepts |
| MessageIdentifier.ZigzagGalpostChannels | bot/context/message_identifier.py:41-46 | a zigzag gallery post is exactly one by the zigzag bot in the sprite or assets gallery; no other author's message is one |
| MessageIdentifier.IsMentioningBot | bot/context/message_identifier.py:54-61 | the loop with break returns true exactly when some mention is the bot |
| MessageIdentifier.IsMentioningReply | bot/context/message_identifier.py:33-38 | true exactly when the bot is mentioned and the message replies to another |
| MessageIdentifier.ForumThreadKinds | bot/context/message_identifier.py:64-73 | a thread outside a forum is neither kind; with distinct forum ids no thread is both; a spritework post is a forum thread with the spritework parent |
| MessageIdentifier.HasIgnoredSpriteworkTags | bot/context/message_identifier.py:76-80 | the loop with early return is true exactly when some applied tag is one of the three ignored tags |
| MessageIdentifier.CustomBaseAtSpellings | bot/context/message_identifier.py:18 | the pattern `[cC]ustom [bB]ase` matches at a position exactly when one of its four spellings stands there |
| MessageIdentifier.HasCustomBaseSpellings | bot/context/message_identifier.py:83-85 | a message mentions a custom base exactly when it contains one of the four spellings |
| MessageIdentifier.IsSpriteGallery | bot/context/message_identifier.py:21-22 | `is_sprite_gallery`: by definition the channel is the configured gallery |
| MessageIdentifier.IsAssetsGallery | bot/context/message_identifier.py:29-30 | `is_assets_gallery`: by definition the channel is the configured assets gallery |
| MessageIdentifier.IsReply | bot/context/message_identifier.py:37-38 | `is_reply`: by definition the message has a reference |
| MessageIdentifier.IsZigzagMessage | bot/context/message_identifier.py:45-46 | `is_zigzag_message`: by definition the author is the zigzag bot |
| MessageIdentifier.IsZigzagGalpost | bot/context/message_identifier.py:41-42 | `is_zigzag_galpost`: by definition a zigzag message in either gallery; `MessageIdentifier.ZigzagGalpostChannels` states it over author and channel |
| MessageIdentifier.IsMessageFromIgnoredBots | bot/context/message_identifier.py:49-51 | `is_message_from_ignored_bots`: by definition the author is this bot or the other ignored bot |
| MessageIdentifier.IsSpriterApplication | bot/context/message_identifier.py:64-67 | `is_spriter_application`: by definition a forum thread under the spriter-applications channel; `MessageIdentifier.ForumThreadKinds` states its properties |
| MessageIdentifier.IsSpriteworkPost | bot/context/message_identifier.py:70-73 | `is_spritework_post`: by definition a forum thread under the spritework channel; `MessageIdentifier.ForumThreadKinds` states its properties |
| MessageIdentifier.HasCustomBaseInMessage | bot/context/message_identifier.py:83-85 | `has_custom_base_in_message`: by definition the pattern matches at some position; `MessageIdentifier.HasCustomBaseSpellings` states it as the four spellings |
| MessageIdentifier.IsAssetsCustomBase | bot/context/message_identifier.py:25-26 | `is_assets_custom_base`: by definition in the assets gallery and mentioning a custom base |
| MessageIdentifier.IsIntentionalTransparency | bot/context/message_identifier.py:88-93 | `is_intentional_transparency`: by definition the same matcher as `LegacyUtils.IsIntentionalTransparency`, on the message content |
| Palette.GetAlpha | bot/analysis_sprite.py:358-363 | the alpha is read exactly from a four-channel tuple and is its fourth channel; a tuple of another length raises `TransparencyException` |
| Palette.IsUselessColor | bot/analysis_sprite.py:350-355 | judged exactly for indices and four-channel tuples; useless exactly for a tuple with alpha 0; otherwise `TransparencyException` |
| Palette.RemoveUselessColors | bot/analysis_sprite.py:340-347 | the loop computes the filter's result entry by entry, raising as soon as an entry cannot be judged |
| Palette.UsefulColorsSpec | bot/analysis_sprite.py:340-363 | the filter raises `TransparencyException` exactly when some colour is a tuple of other than four channels; otherwise it keeps exactly the useful entries, in their original order |
| Palette.GetRgbColorList | bot/analysis_sprite.py:315-321 | one entry per colour, each the colour's first three channels |
| Palette.RgbOf | bot/analysis_sprite.py:318 | `color[0:3]`: the leading channels, three of them when there are at least three |
| Palette.MaxDifferenceSpec | bot/analysis_sprite.py:419-423 | the largest channel difference bounds every channel difference and is attained, is symmetric, is 0 exactly for equal RGB, and is at most 255 for byte channels |
| Palette.ColorDelta | bot/analysis_sprite.py:426-434 | the third distance is the largest channel difference |
| Palette.SimilarChannelsClose | bot/analysis_sprite.py:409-416 | similar colours differ by at most 32 in every channel |
| Palette.FindKey | bot/analysis_sprite.py:295-296 | the dictionary lookup finds the key's index, or reports that no item has the key |
| Palette.Put | bot/analysis_sprite.py:295-296 | `d[key] = delta`: an existing key keeps its place and takes the new delta; a new key goes at the end |
| Palette.GetSimilarColorDict | bot/analysis_sprite.py:287-297 | the double loop computes the pair dictionary of the colour list |
| Palette.PairGridValid | bot/analysis_sprite.py:287-297 | every item pairs two different colours of the list (never a self-pair) under a key that occurs once, holds the distances of those two colours in one order, and those distances are at most 10, 10 and 32 |
| Palette.StoredDelta | bot/analysis_sprite.py:287-297 | the item stored under the key {a, b} holds the distances of a and b in one order, so its channel difference is `get_max_difference(a, b)` |
| Palette.PairGridComplete | bot/analysis_sprite.py:287-297 | every pair of different colours of the list whose distances pass `is_similar` is stored under its unordered key |
| Palette.SimilarityAmountCounts | bot/analysis_sprite.py:210-218 | the keys of the dictionary are exactly the unordered pairs of different colours similar in at least one order, so its length (the similarity amount) counts those pairs |
| Palette.Insert | bot/analysis_sprite.py:300-305 | inserting keeps every item and adds the new one |
| Palette.SortColorDictSpec | bot/analysis_sprite.py:300-305 | sorting is a permutation of the items, orders them by non-decreasing channel difference, and is stable: the items of one channel difference keep their original order |
| Palette.InsertStable | bot/analysis_sprite.py:300-305 | inserting an item places it after every item of the same channel difference and keeps their order |
| Palette.UsefulColors | bot/analysis_sprite.py:340-347 | what `remove_useless_colors` computes: by definition the useful entries in order, or the first entry's exception; `Palette.UsefulColorsSpec` states its meaning |
| Palette.MaxDifference | bot/analysis_sprite.py:419-423 | `get_max_difference`: by definition the largest of the three channel differences; `Palette.MaxDifferenceSpec` states its properties |
| Palette.IsSimilar | bot/analysis_sprite.py:409-416 | `is_similar`: by definition both perceptual distances at most 10 and the channel difference at most 32; `Palette.SimilarChannelsClose` states the channel bound |
| Palette.PairGrid | bot/analysis_sprite.py:287-297 | the pair dictionary `get_similar_color_dict` builds: by definition the double loop's effect; `Palette.PairGridValid` states what every item holds |
| Palette.SortColorDict | bot/analysis_sprite.py:300-305 | `sort_color_dict`: by definition a stable insertion sort on the channel difference; `Palette.SortColorDictSpec` states that it is a stable sorted permutation |
| PixelScans.FirstDiffFromSpec | bot/analysis_sprite.py:370-376 | the position found is the first one in scan order whose pixel differs from the corner; without one, every pixel from the start on equals the corner |
| PixelScans.FirstOffsetSpec | bot/analysis_sprite.py:370-376 | the offset is below 3 both ways; it is (0, 0) when every pixel equals the corner, otherwise (row mod 3, column mod 3) of the first differing pixel |
| PixelScans.FindFirstPixel | bot/analysis_sprite.py:370-376 | the nested loop with early return computes that offset |
| PixelScans.GetColorSet | bot/analysis_sprite.py:379-392 | the set holds exactly the block's colours, with every fully transparent tuple counted as (0, 0, 0, 0) |
| PixelScans.ColorSetSize | bot/analysis_sprite.py:379-398 | the set has more than one colour exactly when some pixel of the block differs from its corner after canonicalisation |
| PixelScans.RecolorPixels | bot/analysis_sprite.py:401-406 | the block is painted the colour and every other pixel keeps its value |
| PixelScans.BlockOf | bot/analysis_sprite.py:276-277 | the `range(start, stop, step)` member whose block holds a coordinate |
| PixelScans.BlockInside | bot/analysis_sprite.py:272-277 | every block a scan visits lies inside the image when the side is a multiple of `step` |
| PixelScans.RowRedIsBlocks | bot/analysis_sprite.py:277-283 | along a row of blocks, the count is `step * step` times the number of mixed blocks |
| PixelScans.GridRedIsBlocks | bot/analysis_sprite.py:276-283 | over the grid, the count is `step * step` times the number of mixed blocks |
| PixelScans.TransparencyHighlightSpec | bot/analysis_sprite.py:253-262 | pink exactly for alphas strictly between 0 and 255, white exactly for alpha 0, black exactly for alpha 255 |
| PixelScans.IsHalfTransparent | bot/analysis_sprite.py:328-329 | `is_half_transparent`: by definition an alpha other than 0 and 255 |
| PixelScans.IsTransparent | bot/analysis_sprite.py:332-333 | `is_transparent`: by definition alpha 0 |
| PixelScans.FirstOffset | bot/analysis_sprite.py:370-376 | the offset `find_first_pixel` returns: by definition the first differing pixel's position modulo 3, or (0, 0); `PixelScans.FirstOffsetSpec` states its meaning |
| PixelScans.GetColorFromSet | bot/analysis_sprite.py:395-398 | `get_color_from_set`: by definition red for more than one colour, else green; `PixelScans.ColorSetSize` relates the set to the block |
| PixelScans.TransparencyHighlight | bot/analysis_sprite.py:253-262 | the highlight colour of one alpha: by definition pink, black or white; `PixelScans.TransparencyHighlightSpec` states each colour exactly |
| SpriteAnalysis.LimitsForSpec | bot/analysis_sprite.py:40-51 | each controversial limit is below its refused limit, and every custom-base limit is stricter than the ordinary one |
| SpriteAnalysis.VerdictsRaise | bot/analysis_sprite.py:104-239 | the format, size, colour-limit, similarity, transparency and half-pixel verdicts each only raise the severity |
| SpriteAnalysis.VerdictsExplainRefusal | bot/analysis_sprite.py:160-239 | a refusal or raise by the colour, similarity and half-pixel stages comes with its finding, and the half-pixel image is kept exactly when the stage refuses |
| SpriteAnalysis.SimilarityVerdictFirst | bot/analysis_sprite.py:160-168 | the similarity count is always reported first, followed by at most one excess finding |
| SpriteAnalysis.AsepriteFindingsSpec | bot/analysis_sprite.py:179-183 | the Aseprite finding appears, at most once, exactly when there are useful colours and more than twice as many useless ones; it carries the truncated ratio |
| SpriteAnalysis.RgbList | bot/analysis_sprite.py:315-321 | the RGB list of four-channel entries has one three-channel colour per entry |
| SpriteAnalysis.ColorStageSteps | bot/analysis_sprite.py:130-143 | with a readable palette, the colour stage is the count, the limit, the gated similarity pass, the Aseprite and GraphicsGale checks and the -2 suspicion, in that order |
| SpriteAnalysis.CountColorsReady | bot/analysis_sprite.py:145-152 | the filter keeps only four-channel tuples of a tuple palette |
| SpriteAnalysis.ColorStageRaises | bot/analysis_sprite.py:130-143 | the colour stage never lowers the severity |
| SpriteAnalysis.ColorStageOverExcess | bot/analysis_sprite.py:130-135 | an overflowing palette refuses with the single `ColorOverExcess(256)` finding, +6 suspicion and no similarity pass |
| SpriteAnalysis.ColorStageSimilarityGate | bot/analysis_sprite.py:137-140 | the similarity amount is reported exactly when the useful count is within the refused colour limit |
| SpriteAnalysis.SimilarityPassGate | bot/analysis_sprite.py:139-140 | the pass reports the amount exactly when it runs, and leaves everything unchanged when it does not |
| SpriteAnalysis.ColorStageCountFirst | bot/analysis_sprite.py:145-158 | with a judgeable palette, the useful count is the stage's first finding |
| SpriteAnalysis.GrewKeeps | bot/analysis_sprite.py:442-449 | once refused, a growing verdict stays refused, and every earlier finding is still there |
| SpriteAnalysis.SpriteContext.constructor | bot/analysis_sprite.py:65-101 | strict limits for the assets gallery or a custom-base finding; 160/2 for an egg sprite, else 288/3; empty palette state |
| SpriteAnalysis.SpriteContext.HandleSpriteFormat | bot/analysis_sprite.py:104-109 | anything but PNG is refused with `NotPng` |
| SpriteAnalysis.SpriteContext.HandleSpriteSize | bot/analysis_sprite.py:116-128 | a wrong size sets the size issue, refuses with `InvalidSize`, and changes suspicion by +8 for 1024², -2 for 96², and -4 for the right size |
| SpriteAnalysis.SpriteContext.HandleColorCount | bot/analysis_sprite.py:145-152 | the filtered palette and counts, or on `TransparencyException` a refusal with `MissingTransparency` and +4 suspicion |
| SpriteAnalysis.SpriteContext.HandleColorAmount | bot/analysis_sprite.py:154-158 | the useful and useless counts add up to the palette size, and the useful count is reported |
| SpriteAnalysis.SpriteContext.GetSimilarityAmount | bot/analysis_sprite.py:212-220 | the sorted similar-pair dictionary of the useful colours, and its size |
| SpriteAnalysis.SpriteContext.HandleColorSimilarity | bot/analysis_sprite.py:160-168 | the count, then refused above the refused limit, or controversial above the other limit unless already refused |
| SpriteAnalysis.SpriteContext.HandleColorLimit | bot/analysis_sprite.py:170-177 | refused above the refused limit; controversial above the other limit unless already refused |
| SpriteAnalysis.SpriteContext.HandleAseprite | bot/analysis_sprite.py:179-183 | adds the Aseprite finding when useless entries exceed twice the useful ones |
| SpriteAnalysis.SpriteContext.HandleGraphicsGale | bot/analysis_sprite.py:185-188 | adds the GraphicsGale finding when the software tag contains "GLDPNG" |
| SpriteAnalysis.SpriteContext.HandleSpriteColors | bot/analysis_sprite.py:130-143 | the colour stage's verdict, findings, suspicion and palette state, and the severity only rises |
| SpriteAnalysis.SpriteContext.HighlightTransparency | bot/analysis_sprite.py:242-265 | the count of pixels with 0 < alpha < 255; `TransparencyException` when no pixel has alpha 0; every highlight pixel pink, white or black by its alpha; nothing counted for an indexed image |
| SpriteAnalysis.SpriteContext.ScanRows | bot/analysis_sprite.py:250-263 | the outer loop: the count and the seen-clear flag of the whole square, with every highlight pixel painted |
| SpriteAnalysis.SpriteContext.ScanRow | bot/analysis_sprite.py:251-263 | the inner loop: one more row counted and painted, in scan order |
| SpriteAnalysis.SpriteContext.HalfPixelAmountBlocks | bot/analysis_sprite.py:267-284 | the half-pixel count is `step * step` times the number of mixed blocks of the scanned grid |
| SpriteAnalysis.SpriteContext.HighlightHalfPixels | bot/analysis_sprite.py:267-284 | the strict grid starts at (0, 0), the lax one at the first-pixel offset; the count is the half-pixel amount and every scanned block is painted red if mixed, else green |
| SpriteAnalysis.SpriteContext.ScanGrid | bot/analysis_sprite.py:276-283 | the two loops over the blocks from an offset: the count and the highlight of every position |
| SpriteAnalysis.SpriteContext.RecolorRow | bot/analysis_sprite.py:277-283 | one row of blocks is counted and painted |
| SpriteAnalysis.SpriteContext.RecolorBlock | bot/analysis_sprite.py:278-283 | a block is red exactly when it is mixed, and it is painted that colour |
| SpriteAnalysis.SpriteContext.GridFits | bot/analysis_sprite.py:36-54 | the image side is a whole number of blocks |
| SpriteAnalysis.SpriteContext.HandleSpriteTransparency | bot/analysis_sprite.py:190-209 | skipped on a size issue or a raised scan; nothing for no semi-transparency; only `IntentionalTransparency` when the text says so; otherwise controversial unless refused, with the image kept |
| SpriteAnalysis.SpriteContext.HandleSpriteHalfPixels | bot/analysis_sprite.py:222-239 | skipped on a size issue; nothing for a clean strict scan; refused with `HalfPixels` and the strict image when the lax scan also counts; otherwise only `MisplacedGrid` |
| SpriteAnalysis.SpriteContext.HandleImageScans | bot/analysis_sprite.py:448-449 | the two scans only raise the verdict, and a size issue leaves their fields and the findings untouched |
| SpriteAnalysis.HandleFormatAndSize | bot/analysis_sprite.py:443-446 | the format and size stages only raise; a non-PNG is refused with `NotPng`; a wrong size sets the size issue and refuses with `InvalidSize` |
| SpriteAnalysis.HandleColorsAndScans | bot/analysis_sprite.py:447-449 | the colour stage and the scans only raise; an overflowing palette refuses with `ColorOverExcess`; a size issue skips the scans |
| SpriteAnalysis.HandleValidSprite | bot/analysis_sprite.py:442-449 | the whole pipeline only raises the severity and only appends; a non-PNG, an overflowing palette and a wrong size each refuse with their finding; a wrong size keeps both scans from running |
| SpriteAnalysis.RunSpriteChecks | bot/analysis_sprite.py:437-439 | the sprite is checked only while accepted or for a reply; otherwise the record is left unchanged |
| SpriteAnalysis.LimitsFor | bot/analysis_sprite.py:83-92 | the four limits: by definition 32/20/15/6 for a custom base or the assets gallery, else 64/32/20/10; `SpriteAnalysis.LimitsForSpec` states their order |
| SpriteAnalysis.FormatVerdict | bot/analysis_sprite.py:104-109 | `handle_sprite_format`'s decision: by definition `NotPng` and refused for anything but "PNG"; `SpriteAnalysis.VerdictsRaise` states that it only raises |
| SpriteAnalysis.SizeVerdict | bot/analysis_sprite.py:116-128 | `handle_sprite_size`'s decision: by definition `InvalidSize` and refused for any size but the expected square; `SpriteAnalysis.VerdictsRaise` states that it only raises |
| SpriteAnalysis.SizeSuspicion | bot/analysis_sprite.py:116-128 | the suspicion change of `handle_sprite_size`: by definition -4 for the right size, +8 for 1024², -2 for 96², else 0 |
| SpriteAnalysis.ColorLimitVerdict | bot/analysis_sprite.py:170-177 | `handle_color_limit`'s decision: by definition refused above the refused limit, else controversial above the other unless refused; `SpriteAnalysis.VerdictsRaise` and `SpriteAnalysis.VerdictsExplainRefusal` state its properties |
| SpriteAnalysis.SimilarityVerdict | bot/analysis_sprite.py:160-168 | `handle_color_similarity`'s decision: by definition the amount, then the refused or the guarded controversial excess; `SpriteAnalysis.SimilarityVerdictFirst` states its shape |
| SpriteAnalysis.AsepriteFindings | bot/analysis_sprite.py:179-183 | `handle_aseprite`'s finding: by definition `AsepriteUser(useless // useful)` when useless > 2 × useful; `SpriteAnalysis.AsepriteFindingsSpec` states when it appears |
| SpriteAnalysis.GaleFindings | bot/analysis_sprite.py:185-188 | `handle_graphics_gale`'s finding: by definition `GraphicsGaleUser` when the software tag contains "GLDPNG" |
| SpriteAnalysis.TransparencyVerdict | bot/analysis_sprite.py:190-209 | `handle_sprite_transparency` after the scan: by definition nothing, the intentional note, or `SemiTransparency` with a guarded controversial and the image kept; `SpriteAnalysis.VerdictsRaise` states that it only raises |
| SpriteAnalysis.HalfPixelVerdict | bot/analysis_sprite.py:222-239 | `handle_sprite_half_pixels` after the scans: by definition nothing, `HalfPixels` and refused, or `MisplacedGrid`; `SpriteAnalysis.VerdictsExplainRefusal` states its properties |
| SpriteAnalysis.SimilarityPass | bot/analysis_sprite.py:137-140 | the gated similarity step: by definition run only when the useful count is within the refused limit; `SpriteAnalysis.SimilarityPassGate` states the gate |
| SpriteAnalysis.ColorStage | bot/analysis_sprite.py:130-143 | `handle_sprite_colors`: by definition the overflow refusal, or the count, limit, similarity, Aseprite and GraphicsGale steps with -2 suspicion; the `ColorStage…` lemmas state its properties |
| SpriteAnalysis.TransparencyAmount | bot/analysis_sprite.py:242-265 | what `highlight_transparency` returns: by definition 0 for an indexed image, `TransparencyException` without four channels or without a clear pixel, else the semi-transparent count; `SpriteAnalysis.SpriteContext.HighlightTransparency` is proved against it |
| SpriteAnalysis.SpriteContext.HalfPixelAmount | bot/analysis_sprite.py:267-284 | what `highlight_half_pixels` counts: by definition the grid count from the scan's offset; `SpriteAnalysis.SpriteContext.HalfPixelAmountBlocks` states it as step² per mixed block |
| AnalysisRecord.AttachmentUrlOf | bot/core/analysis.py:149-166 | outside zigzag posts there is always a URL |
| AnalysisRecord.FusionFilenameOfSpec | bot/core/analysis.py:168-177 | without a file the reading is the empty unknown one; with one, the type is unknown exactly when no well-formed name spells the filename, and a well-formed name gives its ids and type |
| AnalysisRecord.SuspicionBumpSpec | bot/core/analysis.py:168-177 | the bump is 0, 4 or 20: 20 exactly for a "ChatGPT" filename, 4 exactly for another unreadable filename |
| AnalysisRecord.InitialFusionIdOfBuild | bot/core/analysis.py:61-62 | a well-formed filename starts the analysis with its ids; an unknown one with "DEFAULT_VALUE" |
| AnalysisRecord.Analysis.constructor | bot/core/analysis.py:51-64 | an accepted analysis with no findings, its filename reading and suspicion bump, the fusion id from the dex ids, and the attachment URL when there is a file |
| AnalysisRecord.Analysis.GenerateFusionFilename | bot/core/analysis.py:168-177 | returns the filename reading and adds the suspicion bump |
| AnalysisRecord.Analysis.GenerateEmbed | bot/core/analysis.py:66-75 | the report's title, description, colour, footer, image and thumbnail from the record; the autogen flag; the bonus reports |
| AnalysisRecord.Analysis.ApplyImage | bot/core/analysis.py:114-124 | the autogen sprite is available exactly when a names finding exists, the id is set and the autogen sprite is not missing; the flag is only ever set |
| AnalysisRecord.Analysis.HandleBonusEmbed | bot/core/analysis.py:77-81 | a pink transparency report and a red half-pixel report, each exactly when its issue is set |
| AnalysisRecord.TitleTextShape | bot/core/analysis.py:83-92 | the title opens with `__<severity>:` and closes with `__`; the id and letter appear in it exactly when present and non-empty |
| AnalysisRecord.TitleOfBuild | bot/core/analysis.py:83-92 | a well-formed filename gives the title `__<severity>: <ids, egg marker and letter>__` |
| AnalysisRecord.TitleShown | bot/core/analysis.py:89-90 | a non-empty id and letter are shown after the severity |
| AnalysisRecord.DescriptionTextShape | bot/core/analysis.py:97-124 | the description opens with the rendered findings and carries the autogen note exactly when the autogen sprite is available |
| AnalysisRecord.SeverityColour | bot/core/analysis.py:16-21 | no severity maps to gray |
| AnalysisRecord.SeverityColourInjective | bot/core/analysis.py:94-95 | different severities get different colours, never the gray fallback |
| AnalysisRecord.LineEnd | bot/core/analysis.py:105 | the end of the line at a position: no line boundary before it, and a boundary or the end of text at it |
| AnalysisRecord.FooterTextShape | bot/core/analysis.py:104-112 | no footer exactly for an empty message or one that opens with a line break; otherwise the footer is the whole first line |
| AnalysisRecord.AutogenAvailableOfPair | bot/core/analysis.py:114-124 | for "head.body", available exactly when a names finding exists and not (body = 450 or head > 501 or body > 501) |
| AnalysisRecord.CropBox | bot/core/analysis.py:201-207 | every box is 96 × 96 and lies within the ten sheet columns |
| AnalysisRecord.CropBoxInverse | bot/core/analysis.py:201-207 | the box corners are multiples of 96, and the cell number reads back as 10 × row + column |
| AnalysisRecord.CropBoxesDisjoint | bot/core/analysis.py:201-207 | boxes of different cells do not overlap |
| AnalysisRecord.GetAutogenFile | bot/core/analysis.py:180-186 | nothing exactly when the id does not have two parts; otherwise the head's sheet, scaled by 3 |
| AnalysisRecord.GetAutogenFileOfPair | bot/core/analysis.py:180-210 | "head.body" cuts the body's cell out of `head.png` and scales it by 3 |
| AnalysisRecord.HasAttachment | bot/core/analysis.py:132-133 | `has_attachment`: by definition at least one attachment |
| AnalysisRecord.FilenameOf | bot/core/analysis.py:141-147 | `get_filename`: by definition the name from the zigzag embed's image URL, the chosen attachment's, or the first attachment's |
| AnalysisRecord.FusionFilenameOf | bot/core/analysis.py:168-177 | the reading `generate_fusion_filename` produces: by definition the empty unknown one without a file, else `get_fusion_filename` of the filename; `AnalysisRecord.FusionFilenameOfSpec` states its meaning |
| AnalysisRecord.SuspicionBump | bot/core/analysis.py:168-177 | the suspicion `generate_fusion_filename` adds: by definition 20, 4 or 0; `AnalysisRecord.SuspicionBumpSpec` states each case |
| AnalysisRecord.InitialFusionId | bot/core/analysis.py:60-62 | the fusion id at construction: by definition non-empty dex ids, else "DEFAULT_VALUE"; `AnalysisRecord.InitialFusionIdOfBuild` states it for every filename |
| AnalysisRecord.TitleText | bot/core/analysis.py:83-92 | `apply_title`: by definition `__<severity>: <id and letter>__`, or `__<severity>:__` without a non-empty id; `AnalysisRecord.TitleTextShape` states its shape |
| AnalysisRecord.DescriptionText | bot/core/analysis.py:97-98 | `apply_description`, with the note `apply_image` appends (lines 123-124): by definition the rendered findings, the link and the optional note; `AnalysisRecord.DescriptionTextShape` states its shape |
| AnalysisRecord.FooterText | bot/core/analysis.py:104-112 | `apply_footer`: by definition the first line when non-empty; `AnalysisRecord.FooterTextShape` states when there is one and what it is |
| AnalysisRecord.AutogenAvailable | bot/core/analysis.py:114-121 | `apply_image`'s decision: by definition a names finding, a non-default id and no missing autogen; `AnalysisRecord.AutogenAvailableOfPair` states it over the two numbers |
| CommandActions.UsefulOf | bot/command_actions.py:86 | the filter on an RGBA palette cannot raise, and it keeps exactly the useful entries |
| CommandActions.GetSortedColorDict | bot/command_actions.py:82-92 | the palette methods composed step by step give the sorted dictionary |
| CommandActions.SortedColorDictSpec | bot/command_actions.py:82-92 | `ValueError` exactly for a missing or empty palette; otherwise a permutation of the similar pairs of the useful colours, sorted by channel difference |
| CommandActions.SortedColorDictKeys | bot/command_actions.py:86-92 | every item is similar and pairs two different byte colours |
| CommandActions.HexByte | bot/command_actions.py:101 | two hex digits whose value is the byte |
| CommandActions.RgbHex | bot/command_actions.py:101 | `#` and six hex digits, with no line break |
| CommandActions.RgbHexRoundTrip | bot/command_actions.py:99-101 | the hex code of a byte colour reads back as that colour |
| CommandActions.GetRgbPair | bot/command_actions.py:95-101 | the two codes read back as the pair's two colours, in the listed order |
| CommandActions.PairsOf | bot/command_actions.py:64-67 | one pair of codes per dictionary item |
| CommandActions.BuildPairList | bot/command_actions.py:64-67 | the loop builds the pair of codes of every item, in dictionary order |
| CommandActions.PairsOfSpec | bot/command_actions.py:95-101 | each pair of codes names exactly the two colours of its item's key |
| CommandActions.SortedDisplayable | bot/command_actions.py:64-67 | every key of the sorted dictionary of an RGBA image can be listed as two byte colours |
| CommandActions.FormatList | bot/command_actions.py:104-109 | the loop builds one `- **a** and **b**\n` line per pair, in order |
| CommandActions.FormatListAt | bot/command_actions.py:104-109 | pair k's line sits after the lines of the pairs before it and before those after it |
| CommandActions.FormatListLines | bot/command_actions.py:104-109 | for hex codes, the text has exactly one line break per pair |
| CommandActions.SimilarAction | bot/command_actions.py:40-77 | the error replies for a missing attachment, an undecodable image and a palette error; "No similar pairs have been found." for an empty dictionary; otherwise the pairs reply |
| CommandActions.PairsOfHex | bot/command_actions.py:95-101 | the listed codes hold no line break |
| CommandActions.PairsEmbedSpec | bot/command_actions.py:69-76 | the reply lists the first min(n, 20) pairs, one line each, and carries the culled-pairs footer exactly when n > 20 |
| CommandActions.GetChannelNameFromInteraction | bot/command_actions.py:122-133 | "DIRECT MESSAGE" for a DM, "INVALID" for a non-string name, "UNKNOWN" for any failure but `SystemExit`, which escapes; otherwise the name |
| CommandActions.ErrorEmbed | bot/command_actions.py:112-115 | `error_embed`: by definition the error title and the message followed by the addendum |
| CommandActions.SortedColorDict | bot/command_actions.py:82-92 | what `get_sorted_color_dict` returns: by definition `ValueError` for a missing or empty palette, else the sorted similar pairs of the useful colours; `CommandActions.SortedColorDictSpec` states its meaning |
| CommandActions.PairsEmbed | bot/command_actions.py:69-76 | the pairs reply: by definition the first 20 pairs and the culled footer when there are more; `CommandActions.PairsEmbedSpec` states it |
| ContentAnalysis.DexFindingsSpec | bot/core/content_analysis.py:88-112 | exactly one finding: `OutOfDex` exactly when some number exceeds 572; otherwise the custom-base, egg, triple or names finding by type, the names finding looking up head and body |
| ContentAnalysis.DexFindingsSingle | bot/core/content_analysis.py:88-97 | the dex check adds one finding, never a mismatch |
| ContentAnalysis.HandlePokemonNames | bot/core/content_analysis.py:100-104 | appends the names of the head and the body |
| ContentAnalysis.HandlePokemonName | bot/core/content_analysis.py:107-112 | appends the egg or the custom-base finding with the looked-up name |
| ContentAnalysis.HandleDexVerification | bot/core/content_analysis.py:88-97 | appends the dex check's finding for the filename's type |
| ContentAnalysis.BothIdsSpec | bot/core/content_analysis.py:33-47 | a mismatch is reported exactly when the filename id is not among the text ids; then the findings are the mismatch, the text id's check and the filename id's check, and the fusion id is unchanged; otherwise the fusion id becomes the filename id with only its check |
| ContentAnalysis.SomeContentSpec | bot/core/content_analysis.py:60-69 | with a filename id its check comes last and the fusion id is unchanged or becomes that id; without one, `MissingFilename` (text id present) or `UnknownSprite`, then `FileName` |
| ContentAnalysis.ContentContext.constructor | bot/core/content_analysis.py:11-23 | the filename id and type, and the first text id as the content id |
| ContentAnalysis.ContentContext.HandleOnlyFilenameId | bot/core/content_analysis.py:29-31 | the fusion id becomes the filename id, and its dex check is appended |
| ContentAnalysis.ContentContext.HandleMismatchedIds | bot/core/content_analysis.py:44-47 | appends the mismatch and the text id's dex check |
| ContentAnalysis.ContentContext.HandleWithBothIds | bot/core/content_analysis.py:33-42 | the findings and fusion id of the reconciliation outcome; the content id becomes the filename id when it is among the text ids |
| ContentAnalysis.ContentContext.ReconcileIds | bot/core/content_analysis.py:34-41 | the branch before the final check: the filename id becomes the fusion id when found among the text ids, otherwise the mismatch findings |
| ContentAnalysis.HandleNoFilenameId | bot/core/content_analysis.py:72-75 | appends `MissingFilename` and the filename |
| ContentAnalysis.HandleUnknownId | bot/core/content_analysis.py:82-85 | appends `UnknownSprite` and the filename |
| ContentAnalysis.HandleNoContent | bot/core/content_analysis.py:78-79 | appends exactly one `MissingSprite` |
| ContentAnalysis.HandleSomeContent | bot/core/content_analysis.py:60-69 | the findings and the fusion id of the four-way dispatch |
| ContentAnalysis.ContentMain | bot/core/content_analysis.py:50-57 | never changes the severity; with a file or zigzag embed, the dispatch outcome; otherwise exactly one `MissingSprite` |
| ContentAnalysis.DexFindings | bot/core/content_analysis.py:88-112 | the finding `handle_dex_verification` adds: by definition `OutOfDex`, else the egg, custom-base, triple or names finding; `ContentAnalysis.DexFindingsSpec` states it |
| ContentAnalysis.MismatchFindings | bot/core/content_analysis.py:33-47 | what `handle_with_both_ids` reports before the filename id's check: by definition nothing when the text names the filename id, else the mismatch and the text id's check |
| ContentAnalysis.BothIdsOutcome | bot/core/content_analysis.py:33-47 | `handle_with_both_ids`: by definition the mismatch findings and the filename id's check, with the fusion id set when the text names it; `ContentAnalysis.BothIdsSpec` states both cases |
| ContentAnalysis.SomeContentOutcome | bot/core/content_analysis.py:60-69 | `handle_some_content`: by definition the four-way dispatch on which ids are present; `ContentAnalysis.SomeContentSpec` states each case |
| ContentAnalysis.ContentContext.HasBothFusionIds | bot/core/content_analysis.py:26-27 | `has_both_fusion_ids`: by definition both ids present |

## Left out

- Network and decoding are parameters. The HTTP fetch, Pillow's decoding, `convert`, `getcolors`, `image.info` and `load` all become inputs: the pixel array, the palette entries, the format and the software tag. For an RGBA image every entry is modelled as a tuple.
- The perceptual distances (colormath's CIEDE2000 and CMC l:c, and the numpy patch they need) are floating-point library calls. They are a function parameter returning the two truncated integers; the channel difference is modelled exactly.
- `get_rgb_hex` of colormath is modelled as `#` and two lower-case hex digits per byte channel. The library's rounding of upscaled values is assumed to give back the byte.
- The order in which a frozen set lists its two colours is a `Listing` parameter. The model proves that each pair names both colours in some order, not which order.
- Chat platform plumbing has no logic to model: event dispatch, sending embeds and files, reactions, the author line and avatar of the report, the thumbnail URL's upload, tutorial and opt-out features, `log_command`, `help_action`, `fancy_print`, `print_color_dict`, and the JSON name map (a parameter here).
- The routing predicates read the configured channel and bot ids from a `Config` record in place of the setup module.
- The `sprite_analysis` module that bot/command_actions.py imports is not part of the repository's files. It is modelled by the palette functions of bot/analysis_sprite.py.
- `get_similarity_amount` catches `ValueError` and returns -1. The model's palette functions cannot raise it, so that path is not modelled.
- Pixels are read from the image before its RGBA conversion, as in bot/analysis_sprite.py:71 and 445. The model assumes every pixel of one decoded image has the corner pixel's shape: all palette indices or all tuples of one length.
- SpriteAnalysis.SpriteContext.HighlightTransparency: requires the pixel array to be at least `max_size` square; a smaller image never reaches the scans, because the size stage sets the size issue first.
- AnalysisRecord.Analysis.constructor: requires a zigzag post's embed URL to be present. The repository would raise on a missing URL inside `get_filename_from_zigzag_image_url`.
- `WrongLetter` (bot/core/issues.py:130-138) sets `description = Description.wrong_letter` in its class body, and bot/misc/enums.py:6-33 has no such member. That line raises `AttributeError` when bot/core/issues.py is imported, so the module as written cannot load. The model describes the program without that class.
- `IncorrectGallery`, `MissingMessageId` and `DifferentFilenameIds` are modelled as findings, but no modelled code adds them.
- The duplicates in bot/utils.py are modelled once. `get_filename_from_image_url`, `is_missing_autogen`, `is_invalid_base_id`, `get_clean_id_from_result` and the patterns are the same text as in bot/misc/utils.py and bot/core/filename_analysis.py. Only the 573 limit and the other differences get their own members.
- bot/message_identifier.py is an older copy of bot/context/message_identifier.py and is not modelled separately.
- bot/core/gallery_analysis.py is an unfinished draft and is not part of this model.
- bot/spritework_checker.py fetches threads and compares them against the clock. It is not part of this model.
- `\d` in the id patterns is modelled as ASCII 0-9, and `int()` as reading ASCII decimal numerals. In Python's `str` patterns `\d` also matches the other Unicode decimal digits, so a filename such as "1٢3.4.png" is a fusion in the bot but reads as unknown here. The model then adds `UnknownSprite` and `FileName` and the +4 suspicion in its place.
- `\w` (in the `\b` word boundaries) is modelled as ASCII letters, digits and `_`, and case folding as ASCII; `\s` is the full set of Unicode white-space characters.
- `add_issue` is called on the analysis record in bot/core/content_analysis.py but is not defined in bot/core/analysis.py. It is modelled as `issues.add`.
- Helper members carry proof structure and have no row of their own: the Text string lemmas, the DexIds and FilenameAnalysis recogniser lemmas, and the scan-step lemmas and methods (ScanPixel, PaintNext and the grid-painting lemmas).
- Behaviour of the code worth noting:
  - The colour stage runs even after a size issue; only the two scans are skipped.
  - No code path assigns the `ignored` severity. A missing sprite adds a finding tagged ignored and leaves the severity as it was.
  - The lax grid offset is taken modulo 3 even for the egg step of 2.
  - The strict scan's bound `max_size - step` leaves the last row and column of blocks unscanned.
  - A stage assigns `refused` or `controversial` directly, not the maximum of the old and new tiers. The proofs show this is still a raise.
