/**
 * What the application sees of one call to the Claude messages API once the
 * HTTP exchange is over: the status code and, when the body decodes to an
 * object with `content[0].text`, that text. The transport itself (curl,
 * headers, the prompt) is not modelled: a reply is a given value.
 */
module ClaudeReply {
  import opened Wrappers

  /** The fields `suggest_food` reads from the JSON object the model was
      asked to answer with; a field is `None` when it is absent or null. */
  datatype SuggestionFields = SuggestionFields(
    correctedName: Option<string>,
    emoji: Option<string>,
    category: Option<string>,
    confidence: Option<string>)

  /** `content[0].text` and what `json_decode` makes of it: `None` when it
      is not a JSON object or decodes to an empty (falsy) one. */
  datatype ReplyText = ReplyText(text: string, decoded: Option<SuggestionFields>)

  /** The status code and, if the body has one, `content[0].text`. */
  datatype ApiReply = ApiReply(httpCode: int, content: Option<ReplyText>)

  /** The only status the application treats as success. */
  const HttpOk: int := 200
}
