/**
 * The POST `/api/openai-proxy` handler (index.js, lines 20-71) as one pure
 * function of the request's `address` and of the upstream call, which is a
 * parameter: it takes the prompt and gives the call's outcome.
 */
module Handler {
  import opened Wrappers
  import opened Prompt
  import opened Reply
  import opened Digits
  import JsString

  /** What the upstream call gives: the reply body, or the message of the error it threw. */
  datatype Outcome = Success(reply: UpstreamReply) | Failure(msg: string)

  /** The JSON bodies the handler sends. */
  datatype Body =
    | ErrorBody(error: string)                          // { error }
    | ValueBody(value: Option<nat>, raw: Option<string>) // { value, raw }
    | FailureBody(error: string)                        // { value: null, error }

  datatype Response = Response(status: nat, body: Body)

  const AddressRequired: string := "Address is required"

  /** `if (!address)`: an absent or empty address is refused. */
  function ValidateAddress(address: Option<string>): (r: Option<string>)
    ensures r.Some? <==> address.Some? && address.value != ""
    ensures r.Some? ==> r == address
  {
    match address
    case Some(a) => if a == "" then None else Some(a)
    case None => None
  }

  /** The prompt the handler sends upstream, or nothing when it sends no request. */
  function OutboundPrompt(address: Option<string>): (prompt: Option<string>)
    ensures prompt.None? <==> ValidateAddress(address).None?
    ensures prompt.Some? ==> prompt.value == Instructions + JsString.Expand(address.value, Placeholder, Instructions, "")
  {
    match ValidateAddress(address)
    case None => None
    case Some(a) => Some(BuildPrompt(a))
  }

  /** For a non-empty address without `$`, the prompt sent is the instructions followed by the address. */
  lemma PromptCarriesAddress(address: string)
    requires address != "" && JsString.DollarFree(address)
    ensures OutboundPrompt(Some(address)) == Some(Instructions + address)
  {
    BuildPromptWithoutDollar(address);
  }

  /** The response built from the upstream call's outcome (lines 52-69). */
  function Respond(outcome: Outcome): (resp: Response)
    ensures resp.status == 200
    ensures outcome.Failure? ==> resp.body == FailureBody(outcome.msg)
    ensures outcome.Success? ==> resp.body.ValueBody? && resp.body.raw == ExtractText(outcome.reply)
    ensures outcome.Success? ==> (resp.body.value.None? <==> resp.body.raw.None? || !HasDigit(resp.body.raw.value))
    ensures outcome.Success? ==> resp.body.value == ParseValue(resp.body.raw)
  {
    match outcome
    case Success(reply) =>
      var text := ExtractText(reply);
      Response(200, ValueBody(ParseValue(text), text))
    case Failure(msg) => Response(200, FailureBody(msg))
  }

  /**
   * The whole handler: 400 before any upstream call when the address is
   * missing or empty, otherwise one call with the built prompt and a 200
   * response whatever its outcome.
   */
  function Handle(address: Option<string>, call: string -> Outcome): (resp: Response)
    ensures resp.status == 400 <==> ValidateAddress(address).None?
    ensures resp.status == 400 || resp.status == 200
    ensures resp.status == 400 ==> resp.body == ErrorBody(AddressRequired)
    ensures resp.status == 200 ==> resp == Respond(call(OutboundPrompt(address).value))
  {
    match OutboundPrompt(address)
    case None => Response(400, ErrorBody(AddressRequired))
    case Some(prompt) => Respond(call(prompt))
  }

  /** A refused request does not depend on the upstream at all: no call is made. */
  lemma RejectedRequestMakesNoCall(address: Option<string>, call1: string -> Outcome, call2: string -> Outcome)
    requires address.None? || address.value == ""
    ensures Handle(address, call1) == Handle(address, call2) == Response(400, ErrorBody(AddressRequired))
  {
  }

  /** An upstream failure is reported with status 200, a null value and its message. */
  lemma UpstreamFailureIsReportedAs200(address: string, call: string -> Outcome)
    requires address != ""
    requires call(BuildPrompt(address)).Failure?
    ensures Handle(Some(address), call) == Response(200, FailureBody(call(BuildPrompt(address)).msg))
  {
  }

  /**
   * A successful reply is answered with status 200, the extracted text
   * unmodified as `raw`, and its digits read as `value`.
   */
  lemma SuccessfulReplyIsNormalised(address: string, call: string -> Outcome)
    requires address != ""
    requires call(BuildPrompt(address)).Success?
    ensures var text := ExtractText(call(BuildPrompt(address)).reply);
            Handle(Some(address), call) == Response(200, ValueBody(ParseValue(text), text))
  {
  }

  /** The reply `{output: [{content: [{text: "450000"}]}]}` gives 450000. */
  lemma PlainFigureExample()
    ensures var reply := UpstreamReply(Some([OutputItem(Some([ContentPart(Some("450000"))]))]), None);
            Respond(Success(reply)) == Response(200, ValueBody(Some(450000), Some("450000")))
  {
    StripNonDigitsFixedPoints("450000");
    ParseDollarDigits();
  }

  /** The reply `{output_text: "$450,000"}` gives 450000, keeping the decorated text as `raw`. */
  lemma OutputTextExample()
    ensures Respond(Success(UpstreamReply(None, Some("$450,000"))))
         == Response(200, ValueBody(Some(450000), Some("$450,000")))
  {
    DollarAmountExample();
  }

  /** An empty first text wins over `output_text` and gives a null value. */
  lemma EmptyTextExample()
    ensures var reply := UpstreamReply(Some([OutputItem(Some([ContentPart(Some(""))]))]), Some("450000"));
            Respond(Success(reply)) == Response(200, ValueBody(None, Some("")))
  {
    EmptyFirstTextDoesNotFallThrough(Some("450000"));
  }
}
