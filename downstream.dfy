/**
 * The downstream gateway, seen from the arbitration engine.  Each remote
 * capability is a single best-effort call; the engine only observes what
 * comes back.  A call that raises (transport failure, a reply of the wrong
 * shape, a missing field that is indexed rather than looked up, a score
 * that cannot be normalized) is the `...Failed` variant; otherwise the
 * fields the engine reads out of the reply are kept, still unvalidated.
 */
module Downstream {
  import opened Wrappers

  /**
   * A field read with `reply.get(name)`: a string, or anything else
   * (absent, null, a number, a list ...).  Only `Str` can pass validation.
   */
  datatype Raw = Str(s: string) | NonStr

  /** IdiomQA (`text`, `idiom`) and PoetryQA (`answer`, `key_text`) replies. */
  datatype QaReply = QaFailed | QaOk(answer: Raw, key: Raw)

  /**
   * PoetryChat: the top candidate's `poem_mandarin` text (JSON null is None),
   * its score already normalized, and its `poem` field.
   */
  datatype PoetryChatReply = PoetryChatFailed | PoetryChatOk(text: Option<string>, score: real, key: Raw)

  /** IdiomChat: the top-ranked text and its normalized score. */
  datatype IdiomChatReply = IdiomChatFailed | IdiomChatOk(text: Option<string>, score: real)

  /** IdiomCheck: the `idiom` field of the reply, taken as it is. */
  datatype CheckReply = CheckFailed | CheckOk(idiom: Option<string>)

  /**
   * The five capabilities as the engine calls them.  QA calls receive the
   * query, the user id and the context hint (the active idiom or poem);
   * chat calls the query and the user id; IdiomCheck the chat text found.
   */
  datatype Gateway = Gateway(
    idiomQa: (string, string, Option<string>) -> QaReply,
    poetryQa: (string, string, Option<string>) -> QaReply,
    poetryChat: (string, string) -> PoetryChatReply,
    idiomChat: (string, string) -> IdiomChatReply,
    idiomCheck: (Option<string>, string) -> CheckReply)
}
