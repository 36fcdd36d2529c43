/**
 * The upstream Responses-API reply and the extraction of the assistant text
 * from it (index.js, lines 52-55).
 */
module Reply {
  import opened Wrappers

  /** One content part of an output item; `text` may be absent. */
  datatype ContentPart = ContentPart(text: Option<string>)

  /** One output item; its `content` list may be absent. */
  datatype OutputItem = OutputItem(content: Option<seq<ContentPart>>)

  /**
   * The reply body: an optional list of output items and an optional flat
   * `output_text`. A missing body behaves as one with both fields absent.
   */
  datatype UpstreamReply = UpstreamReply(output: Option<seq<OutputItem>>, outputText: Option<string>)

  /** `a ?? b`: `a` unless it is null or undefined; an empty string does not fall through. */
  function Coalesce<T>(a: Option<T>, b: Option<T>): Option<T>
  {
    match a
    case Some(_) => a
    case None => b
  }

  /** `reply.output?.[0]?.content?.[0]?.text`: every missing step yields undefined. */
  function FirstContentText(reply: UpstreamReply): (r: Option<string>)
    ensures forall t :: HasFirstText(reply, t) <==> r == Some(t)
  {
    match reply.output
    case None => None
    case Some(items) =>
      if |items| == 0 then None
      else
        match items[0].content
        case None => None
        case Some(parts) => if |parts| == 0 then None else parts[0].text
  }

  /** The path `output[0].content[0].text` exists in `reply` and holds `t`. */
  ghost predicate HasFirstText(reply: UpstreamReply, t: string) {
    && reply.output.Some?
    && |reply.output.value| > 0
    && reply.output.value[0].content.Some?
    && |reply.output.value[0].content.value| > 0
    && reply.output.value[0].content.value[0].text == Some(t)
  }

  /**
   * The text the handler works on: the first content part's text when that
   * path holds a value (even the empty string), otherwise `output_text`,
   * otherwise null.
   */
  function ExtractText(reply: UpstreamReply): (text: Option<string>)
    ensures forall t :: HasFirstText(reply, t) ==> text == Some(t)
    ensures (forall t :: !HasFirstText(reply, t)) ==> text == reply.outputText
    ensures text.None? <==> (forall t :: !HasFirstText(reply, t)) && reply.outputText.None?
  {
    Coalesce(Coalesce(FirstContentText(reply), reply.outputText), None)
  }

  /** The first path wins even over a non-empty `output_text` when its text is `""`. */
  lemma EmptyFirstTextDoesNotFallThrough(outputText: Option<string>)
    ensures ExtractText(UpstreamReply(Some([OutputItem(Some([ContentPart(Some(""))]))]), outputText)) == Some("")
  {
    assert HasFirstText(UpstreamReply(Some([OutputItem(Some([ContentPart(Some(""))]))]), outputText), "");
  }

  /** Empty lists, missing content and a null text all fall through to `output_text`. */
  lemma MissingFirstTextFallsThrough(outputText: Option<string>)
    ensures ExtractText(UpstreamReply(Some([]), outputText)) == outputText
    ensures ExtractText(UpstreamReply(Some([OutputItem(None)]), outputText)) == outputText
    ensures ExtractText(UpstreamReply(Some([OutputItem(Some([]))]), outputText)) == outputText
    ensures ExtractText(UpstreamReply(Some([OutputItem(Some([ContentPart(None)]))]), outputText)) == outputText
  {
  }
}
