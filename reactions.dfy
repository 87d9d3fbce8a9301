/** reactions.go: the preset reactions, how a reaction is classified as an
    emoji or a custom emoji id, and the parameters `React` sends with
    `setMessageReaction`. Strings sent to the API are Go strings, so byte
    sequences here. */
module Reactions {
  import opened Wrappers
  import opened Utf8
  import Text

  // The presets, as the UTF-8 bytes of their Go string literals.
  const ReactionLike: seq<byte> := [0xF0, 0x9F, 0x91, 0x8D]
  const ReactionDislike: seq<byte> := [0xF0, 0x9F, 0x91, 0x8E]
  const ReactionHeart: seq<byte> := [0xE2, 0x9D, 0xA4]
  const ReactionOK: seq<byte> := [0xF0, 0x9F, 0x91, 0x8C]
  const ReactionFire: seq<byte> := [0xF0, 0x9F, 0x94, 0xA5]
  const ReactionPray: seq<byte> := [0xF0, 0x9F, 0x99, 0x8F]
  const ReactionStrawberry: seq<byte> := [0xF0, 0x9F, 0x8D, 0x93]
  const ReactionClown: seq<byte> := [0xF0, 0x9F, 0xA4, 0xA1]

  /** `reactionType`: "emoji" for up to four runes, "custom_emoji_id" above. */
  function ReactionType(reaction: seq<byte>): (t: string)
    ensures t == "emoji" <==> RuneCount(reaction) <= 4
    ensures t == "custom_emoji_id" <==> RuneCount(reaction) > 4
  {
    if RuneCount(reaction) <= 4 then "emoji" else "custom_emoji_id"
  }

  /** A text of up to four code points is sent as an emoji, any longer one as a
      custom emoji id. */
  lemma EncodedReactionType(cps: seq<int>)
    requires forall i :: 0 <= i < |cps| ==> IsScalar(cps[i])
    ensures ReactionType(EncodeAll(cps)) == if |cps| <= 4 then "emoji" else "custom_emoji_id"
  {
    RuneCountEncodeAll(cps);
  }

  /** A reaction of at most four bytes is always an emoji, and one of more
      than sixteen bytes never is. */
  lemma ReactionTypeByLength(reaction: seq<byte>)
    ensures |reaction| <= 4 ==> ReactionType(reaction) == "emoji"
    ensures |reaction| > 16 ==> ReactionType(reaction) == "custom_emoji_id"
  {
    RuneCountLower(reaction);
  }

  /** Each preset is one code point, so an emoji. */
  lemma PresetsAreEmoji()
    ensures ReactionType(ReactionLike) == "emoji"
    ensures ReactionType(ReactionDislike) == "emoji"
    ensures ReactionType(ReactionHeart) == "emoji"
    ensures ReactionType(ReactionOK) == "emoji"
    ensures ReactionType(ReactionFire) == "emoji"
    ensures ReactionType(ReactionPray) == "emoji"
    ensures ReactionType(ReactionStrawberry) == "emoji"
    ensures ReactionType(ReactionClown) == "emoji"
  {
    ReactionTypeByLength(ReactionLike);
    ReactionTypeByLength(ReactionDislike);
    ReactionTypeByLength(ReactionHeart);
    ReactionTypeByLength(ReactionOK);
    ReactionTypeByLength(ReactionFire);
    ReactionTypeByLength(ReactionPray);
    ReactionTypeByLength(ReactionStrawberry);
    ReactionTypeByLength(ReactionClown);
  }

  /** Each preset decodes as exactly one rune. */
  lemma PresetsOneRune()
    ensures RuneCount(ReactionHeart) == 1
    ensures RuneCount(ReactionLike) == 1
  {
    assert ReactionHeart[3..] == [];
    assert ReactionLike[4..] == [];
  }

  /** The `reaction` parameter: a one-element JSON array naming the type and
      the reaction itself, inserted as is. */
  function ReactionJson(reaction: seq<byte>): string {
    "[{\"type\": \"" + ReactionType(reaction) + "\", \"emoji\": \"" + Chars(reaction) + "\"}]"
  }

  /** The parameters `React` sends: the chat and message ids in decimal, the
      reaction, and `is_big` only when the first of the optional flags is set. */
  function ReactParams(chatId: int, messageId: int, reaction: seq<byte>, isBig: seq<bool>): (params: map<string, string>)
    ensures "is_big" in params <==> |isBig| > 0 && isBig[0]
    ensures "is_big" in params ==> params["is_big"] == "true"
    ensures params.Keys - {"is_big"} == {"chat_id", "message_id", "reaction"}
    ensures params["reaction"] == ReactionJson(reaction)
  {
    var base := map[
      "chat_id" := Text.FormatInt(chatId),
      "message_id" := Text.FormatInt(messageId),
      "reaction" := ReactionJson(reaction)];
    if |isBig| > 0 && isBig[0] then base["is_big" := "true"] else base
  }

  /** Both ids can be read back from the parameters. */
  lemma ReactParamsIds(chatId: int, messageId: int, reaction: seq<byte>, isBig: seq<bool>)
    requires Text.InInt64(chatId) && Text.InInt64(messageId)
    ensures Text.ParseInt64(ReactParams(chatId, messageId, reaction, isBig)["chat_id"]) == Some(chatId)
    ensures Text.ParseInt64(ReactParams(chatId, messageId, reaction, isBig)["message_id"]) == Some(messageId)
  {
    Text.ParseFormatInt(chatId);
    Text.ParseFormatInt(messageId);
  }
}
