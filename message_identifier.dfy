/** How an incoming message or forum thread is routed: which channel it was
    posted in, who wrote it, whom it mentions, which tags its thread carries,
    and two phrases looked for in its text. The channel ids and the bot's own
    user id come from the deployment's configuration and are passed in. */
module MessageIdentifier {
  import opened Text
  import opened Platform
  import LegacyUtils

  /** The user id of the zigzag gallery bot. */
  const ZigzagId := 1185671488611819560
  /** The user id of the other bot whose messages are ignored. */
  const YanmegaId := 204255221017214977

  const TagCustomizationId := 1200461437726883921
  const TagNonIfId := 1058148169986342963
  const TagOtherId := 1051367034673434634
  /** Spritework tags whose threads are not analysed. */
  const IgnoredSpriteworkTags: seq<int> := [TagCustomizationId, TagNonIfId, TagOtherId]

  /** The configured ids the predicates compare against. */
  datatype Config = Config(
    galleryChannelId: int,
    assetsChannelId: int,
    spriterAppsChannelId: int,
    spriteworkChannelId: int,
    botId: int)

  predicate IsSpriteGallery(cfg: Config, m: Message) {
    m.channelId == cfg.galleryChannelId
  }

  predicate IsAssetsGallery(cfg: Config, m: Message) {
    m.channelId == cfg.assetsChannelId
  }

  predicate IsReply(m: Message) {
    m.hasReference
  }

  predicate IsZigzagMessage(m: Message) {
    m.authorId == ZigzagId
  }

  /** `is_zigzag_galpost`: written by the zigzag bot in one of the two
      galleries. */
  predicate IsZigzagGalpost(cfg: Config, m: Message) {
    IsZigzagMessage(m) && (IsSpriteGallery(cfg, m) || IsAssetsGallery(cfg, m))
  }

  /** A zigzag gallery post is one posted by the zigzag bot whose channel is
      one of the two configured galleries; changing the author to anyone
      else or the channel to any other one makes it an ordinary message. */
  lemma ZigzagGalpostChannels(cfg: Config, m: Message)
    ensures IsZigzagGalpost(cfg, m)
      <==> m.authorId == ZigzagId && m.channelId in {cfg.galleryChannelId, cfg.assetsChannelId}
    ensures forall a :: a != ZigzagId ==> !IsZigzagGalpost(cfg, m.(authorId := a))
  {
  }

  /** `is_message_from_ignored_bots`: written by this bot or by the other
      ignored bot. */
  predicate IsMessageFromIgnoredBots(cfg: Config, m: Message) {
    m.authorId in [cfg.botId, YanmegaId]
  }

  /** `is_mentioning_bot`: scans the mentions in order and stops at the first
      one that is the bot. */
  method IsMentioningBot(cfg: Config, m: Message) returns (result: bool)
    ensures result <==> exists k :: 0 <= k < |m.mentionIds| && m.mentionIds[k] == cfg.botId
  {
    result := false;
    var fusionBotId := cfg.botId;
    var i := 0;
    while i < |m.mentionIds|
      invariant 0 <= i <= |m.mentionIds|
      invariant !result
      invariant forall k :: 0 <= k < i ==> m.mentionIds[k] != fusionBotId
    {
      if fusionBotId == m.mentionIds[i] {
        result := true;
        break;
      }
      i := i + 1;
    }
  }

  /** `is_mentioning_reply`: the bot is mentioned and the message replies to
      another one. */
  method IsMentioningReply(cfg: Config, m: Message) returns (result: bool)
    ensures result <==> cfg.botId in m.mentionIds && IsReply(m)
  {
    var mentioning := IsMentioningBot(cfg, m);
    result := mentioning && IsReply(m);
  }

  /** `is_spriter_application`: a thread of the forum that holds spriter
      applications. */
  predicate IsSpriterApplication(cfg: Config, t: Thread) {
    if !t.parentIsForum then false
    else t.parentId == cfg.spriterAppsChannelId
  }

  /** `is_spritework_post`: a thread of the spritework forum. */
  predicate IsSpriteworkPost(cfg: Config, t: Thread) {
    if !t.parentIsForum then false
    else t.parentId == cfg.spriteworkChannelId
  }

  /** A thread outside a forum is neither kind; with distinct forum ids no
      thread is both. */
  lemma ForumThreadKinds(cfg: Config, t: Thread)
    ensures !t.parentIsForum ==> !IsSpriterApplication(cfg, t) && !IsSpriteworkPost(cfg, t)
    ensures cfg.spriterAppsChannelId != cfg.spriteworkChannelId
      ==> !(IsSpriterApplication(cfg, t) && IsSpriteworkPost(cfg, t))
    ensures IsSpriteworkPost(cfg, t) <==> t.parentIsForum && t.parentId == cfg.spriteworkChannelId
  {
  }

  /** `has_ignored_spritework_tags`: scans the applied tags in order and
      returns at the first one on the ignore list. */
  method HasIgnoredSpriteworkTags(t: Thread) returns (result: bool)
    ensures result <==> exists k :: 0 <= k < |t.appliedTagIds| && t.appliedTagIds[k] in IgnoredSpriteworkTags
  {
    var i := 0;
    while i < |t.appliedTagIds|
      invariant 0 <= i <= |t.appliedTagIds|
      invariant forall k :: 0 <= k < i ==> t.appliedTagIds[k] !in IgnoredSpriteworkTags
    {
      if t.appliedTagIds[i] in IgnoredSpriteworkTags {
        return true;
      }
      i := i + 1;
    }
    return false;
  }

  // ---------------------------------------------------------------------
  // "[cC]ustom [bB]ase"
  // ---------------------------------------------------------------------

  /** The pattern `[cC]ustom [bB]ase` at `i`. */
  predicate CustomBaseAt(s: string, i: nat) {
    i + 11 <= |s|
    && (s[i] == 'c' || s[i] == 'C')
    && s[i + 1] == 'u' && s[i + 2] == 's' && s[i + 3] == 't' && s[i + 4] == 'o' && s[i + 5] == 'm'
    && s[i + 6] == ' '
    && (s[i + 7] == 'b' || s[i + 7] == 'B')
    && s[i + 8] == 'a' && s[i + 9] == 's' && s[i + 10] == 'e'
  }

  /** `has_custom_base_in_message`: the pattern occurs somewhere in the
      content. */
  predicate HasCustomBaseInMessage(m: Message) {
    exists i :: 0 <= i <= |m.content| && CustomBaseAt(m.content, i)
  }

  /** The four spellings the pattern admits. */
  const CustomBaseSpellings: seq<string> := ["custom base", "custom Base", "Custom base", "Custom Base"]

  /** The pattern at `i` is exactly one of its four spellings there. */
  lemma CustomBaseAtSpellings(s: string, i: nat)
    ensures CustomBaseAt(s, i) <==> exists w :: w in CustomBaseSpellings && OccursAt(s, w, i)
  {
    if CustomBaseAt(s, i) {
      var w := [s[i]] + "ustom " + [s[i + 7]] + "ase";
      assert s[i..i + 11] == w;
      assert w == CustomBaseSpellings[(if s[i] == 'c' then 0 else 2) + (if s[i + 7] == 'b' then 0 else 1)];
      assert OccursAt(s, w, i);
    }
    if w :| w in CustomBaseSpellings && OccursAt(s, w, i) {
      SpellingShape(w);
      forall k | 0 <= k < 11 ensures s[i + k] == w[k] {
        OccursAtChar(s, w, i, k);
      }
    }
  }

  /** Each spelling, character by character. */
  lemma SpellingShape(w: string)
    requires w in CustomBaseSpellings
    ensures |w| == 11 && (w[0] == 'c' || w[0] == 'C') && (w[7] == 'b' || w[7] == 'B')
    ensures w[1] == 'u' && w[2] == 's' && w[3] == 't' && w[4] == 'o' && w[5] == 'm' && w[6] == ' '
    ensures w[8] == 'a' && w[9] == 's' && w[10] == 'e'
  {
  }

  /** The message mentions a custom base exactly when one of the four
      spellings occurs in its text. */
  lemma HasCustomBaseSpellings(m: Message)
    ensures HasCustomBaseInMessage(m)
      <==> exists w :: w in CustomBaseSpellings && Contains(m.content, w)
  {
    if HasCustomBaseInMessage(m) {
      var i :| 0 <= i <= |m.content| && CustomBaseAt(m.content, i);
      CustomBaseAtSpellings(m.content, i);
    }
    if w :| w in CustomBaseSpellings && Contains(m.content, w) {
      var i :| 0 <= i <= |m.content| && OccursAt(m.content, w, i);
      CustomBaseAtSpellings(m.content, i);
    }
  }

  /** `is_assets_custom_base`: posted in the assets gallery and mentioning a
      custom base. */
  predicate IsAssetsCustomBase(cfg: Config, m: Message) {
    IsAssetsGallery(cfg, m) && HasCustomBaseInMessage(m)
  }

  /** `is_intentional_transparency`: the same matcher as the one the sprite
      analysis imports, applied to the message text. */
  predicate IsIntentionalTransparency(m: Message) {
    LegacyUtils.IsIntentionalTransparency(m.content)
  }
}
