# openai-proxy: request normalisation, modelled in Dafny

The proxy has one real endpoint, `POST /api/openai-proxy`. It takes a property
`address` and refuses the request when the address is missing. Otherwise it
puts the address into a fixed AVM (Automated Valuation Model) instruction
template and sends the prompt to an LLM "responses" API. From the reply it takes
the assistant text, keeps only the ASCII digits of that text and reads them as
one integer. It answers `{value, raw}`. When the upstream call fails it still
answers with status 200, as `{value: null, error}`.

This project models that pipeline as pure functions:

- `wrappers.dfy` (`Wrappers`): `Option`, which stands for JavaScript's `null`/`undefined`.
- `jsstring.dfy` (`JsString`): `String.prototype.replace` with a string search value.
  It finds the first occurrence as `indexOf` does. It then expands the
  replacement's `$$`, `$&`, `` $` `` and `$'` patterns, as GetSubstitution does
  (ECMA-262, section 22.1.3.19.1).
- `prompt.dfy` (`Prompt`): the template `AVM_PROMPT_TEMPLATE` and the prompt builder.
  The template's text is written out verbatim. It is cut into short lines so
  that the verifier can check, line by line, that no `{` occurs before the
  single `{address}` at its end.
- `reply.dfy` (`Reply`): the upstream reply and the `?.`/`??` extraction of its text.
- `digits.dfy` (`Digits`): the digit stripping (`replace(/[^\d]/g, '')`) and
  `parseInt(digits, 10)`. `Decimal` is a reference spelling of numbers, used as
  the inverse of parsing.
- `handler.dfy` (`Handler`): validation, the outbound prompt, response assembly
  and the whole handler. The upstream call is a parameter `call: string -> Outcome`.
  So the model can state which prompt is sent, and that no call is made when
  the request is refused.

For an arbitrary address, the prompt built at index.js:30 need not contain the
address exactly once. The address may itself contain template words, or `$`
patterns that `replace` expands. What the model proves is that the prompt is the
template's instruction text followed by the expanded address. Without `$`, the
expanded address is the address itself.

## Model

| member | source | states |
|---|---|---|
| JsString.IndexOfFrom | index.js:30 | The search that `replace` uses. A found index is at or after `from`, holds a match, and no earlier index from `from` holds one. When nothing is found, no index from `from` holds a match. |
| JsString.IndexOf | index.js:30 | A result exists exactly when the pattern occurs somewhere. It is then the first occurrence. |
| JsString.Expand | index.js:30 | The expansion of the replacement string. A replacement without `$` is inserted verbatim. |
| JsString.ExpandPlainPrefix | index.js:30 | Text without `$` at the front of a replacement is copied unchanged, and the rest is expanded on its own. |
| JsString.ExpandDoubleDollar | index.js:30 | Wherever `$$` follows `$`-free text in a replacement, it becomes one `$`, and the rest of the replacement is expanded on its own. |
| JsString.ExpandOtherDollar | index.js:30 | Wherever `$` is followed by a character other than `$`, `&`, `` ` `` and `'` after `$`-free text, both characters are kept as they are, and the rest is expanded on its own. |
| JsString.ExpandTrailingDollar | index.js:30 | A `$` at the end of a replacement, after `$`-free text, is kept as it is. |
| JsString.ExpandMatchReferences | index.js:30 | Wherever `$&`, `` $` `` or `$'` follows `$`-free text in a replacement, it becomes the matched text, the text before the match or the text after it, and the rest is expanded on its own. |
| JsString.Replace | index.js:30 | A string in which the pattern never occurs is returned unchanged. |
| JsString.ReplaceAtFirstOccurrence | index.js:30 | When the pattern first occurs right after `u` in `u + pat + v`, only that occurrence is replaced. `u` and `v` are kept around the expanded replacement. |
| Prompt.Join | index.js:17-18 | The template text before the placeholder contains no `{`. |
| Prompt.PlaceholderOnlyAtEnd | index.js:16-18 | The template contains `{address}` exactly once, as its final token. `indexOf` finds it right after the instruction text. |
| Prompt.BuildPrompt | index.js:30 | For every address, the prompt is the template's instruction text, unchanged, followed by the address with its `$` patterns expanded. |
| Prompt.BuildPromptWithoutDollar | index.js:30 | For an address without `$`, the prompt is the instruction text followed by the address. Every template character before the placeholder is unchanged, and the rest of the prompt is exactly the address. |
| Prompt.DoubleDollarInAddress | index.js:30 | For every address of the form `plain + "$$" + rest` with `$`-free `plain`, the prompt is the instruction text, `plain`, one `$` and the expansion of `rest`. |
| Prompt.MatchReferenceInAddress | index.js:30 | For every address of the form `plain + "$&" + rest` with `$`-free `plain`, the `$&` puts the placeholder `{address}` itself into the prompt. |
| Reply.FirstContentText | index.js:53 | `output?.[0]?.content?.[0]?.text` yields `t` exactly when that path exists and holds `t`. |
| Reply.ExtractText | index.js:52-55 | If the first content text exists, it is the result, even when it is empty. Otherwise the result is `output_text`. The result is null exactly when both are absent. It models the whole chain `a ?? b ?? null`, where `??` falls through only on null or undefined, never on `""`. |
| Reply.EmptyFirstTextDoesNotFallThrough | index.js:52-55 | An empty first content text is returned even when `output_text` is present. |
| Reply.MissingFirstTextFallsThrough | index.js:53-54 | An empty output list, a missing content list, an empty content list and a null text all fall through to `output_text`. |
| Digits.StripNonDigits | index.js:59 | The stripped text consists of ASCII digits only and is no longer than the text. |
| Digits.StripNonDigitsAppend | index.js:59 | Stripping distributes over concatenation, so the digit groups of a text are joined in order. |
| Digits.StripNonDigitsIsSubsequence | index.js:59 | The stripped text is an order-preserving subsequence of the text. |
| Digits.StripNonDigitsCounts | index.js:59 | Each digit occurs in the stripped text as often as in the text. No other character occurs in it. |
| Digits.StripNonDigitsEmpty | index.js:59-60 | The stripped text is empty exactly when the text has no ASCII digit. |
| Digits.StripNonDigitsFixedPoints | index.js:59 | Stripping leaves a text unchanged exactly when the text is all digits. |
| Digits.StripNonDigitsIdempotent | index.js:59 | Stripping twice gives the same result as stripping once. |
| Digits.ParseDecimal | index.js:60 | A string of `k` digits reads as a natural number below 10^k. |
| Digits.ParseDecimalAppend | index.js:60 | Reading `a + b` gives the value of `a` shifted left past `b`'s digits, plus the value of `b`. |
| Digits.ParseDecimalZeros | index.js:60 | A string of zeros reads as 0. |
| Digits.LeadingZerosIgnored | index.js:60 | Leading zeros do not change the value. |
| Digits.ParseDecimalOfDecimal | index.js:60 | Reading back the decimal spelling of `n` gives `n`, so parsing inverts printing. |
| Digits.ParseValue | index.js:59-60 | `value` is null exactly when the text is null or has no ASCII digit. Otherwise it is the text's digits, in order, read as a decimal number. It models `String(text || '')` followed by digit stripping and `parseInt`, so a null text gives null. |
| Digits.ParseValueJoinsDigitGroups | index.js:59-60 | The value of `x + y` is the digits of `x` followed by the digits of `y`, read as one number. Separate digit groups are joined, not chosen between. |
| Digits.ParseValueOfDecimal | index.js:59-60 | A text that is the decimal spelling of `n` gives `n`. |
| Digits.DollarAmountExample | index.js:59-60 | `$450,000` gives 450000. |
| Digits.SeveralNumbersExample | index.js:59-60 | `$450,000 (3 comps)` gives 4500003. |
| Digits.NoDigitsExample | index.js:59-60 | `I cannot determine a value.` gives null. |
| Digits.LeadingZerosExample | index.js:60 | `007` gives 7. |
| Handler.ValidateAddress | index.js:25-28 | An address passes exactly when it is present and non-empty. It then passes unchanged. |
| Handler.OutboundPrompt | index.js:25-30 | A prompt is sent exactly when the address passes validation. It is the instruction text followed by the expanded address. |
| Handler.PromptCarriesAddress | index.js:30 | For a non-empty address without `$`, the prompt sent is the instruction text followed by the address. |
| Handler.Respond | index.js:52-69 | Every upstream outcome gives status 200. A failure gives `{value: null, error: msg}`. A success gives `raw` equal to the extracted text, and `value` is the parsed value of that text, which is null exactly when the text is null or has no digit. |
| Handler.Handle | index.js:20-71 | The status is 400 exactly when the address is missing or empty, with `{error: "Address is required"}`. Every other request gets status 200, and its response is built from the outcome of calling upstream with the built prompt. |
| Handler.RejectedRequestMakesNoCall | index.js:25-28 | A refused request gives the same 400 response whatever the upstream would do, so no call is made. |
| Handler.UpstreamFailureIsReportedAs200 | index.js:66-69 | An upstream failure is answered with status 200, `value: null` and the failure's message. |
| Handler.SuccessfulReplyIsNormalised | index.js:52-65 | A successful reply is answered with status 200, the parsed value and the unmodified extracted text as `raw`. |
| Handler.PlainFigureExample | index.js:52-65 | `{output: [{content: [{text: "450000"}]}]}` gives `{value: 450000, raw: "450000"}`. |
| Handler.OutputTextExample | index.js:52-65 | `{output_text: "$450,000"}` gives `{value: 450000, raw: "$450,000"}`. |
| Handler.EmptyTextExample | index.js:52-60 | An empty first content text beside `output_text: "450000"` gives `{value: null, raw: ""}`. |

## Left out

- Express setup, the CORS middleware, the `/health` route and `app.listen` (index.js:5-7, 14, 73-76): server plumbing.
- The axios POST, its headers, the bearer token and the 30-second timeout (index.js:34-44): network I/O. The model takes the call as the parameter `call: string -> Outcome`.
- Reading the API key, the model name and the port from the environment (index.js:9-11, 73): process configuration.
- All logging and the pretty-printed dump of the reply (index.js:21-57, 63, 68): output only.
- How the error message is built from the error object (index.js:67): it depends on foreign error objects, so `Failure(msg)` carries the message as an opaque string.
- Digits.ParseDecimal: the value is an exact unbounded natural number. JavaScript's `parseInt` loses precision above 2^53 and gives `Infinity` for very long digit strings. Those limits are not modelled.
- Handler.ValidateAddress: the address is modelled as an optional string. JavaScript's falsiness of other values (`0`, `false`) is not modelled. Neither are truthy non-string addresses (`123`, `{}`, `[]`), which `replace` coerces with `String(...)` into the prompt.
- Reply.ExtractText, Digits.ParseValue: the extracted text is modelled as an optional string. The `String(...)` coercion of non-string `text` or `output_text` values is not modelled.
- Reply.ExtractText: a null or missing reply body (`data?.`) behaves the same as `UpstreamReply(None, None)`, so it has no separate case.
- Characters are Dafny `char`s, not UTF-16 code units. The model does not depend on the difference, because `\d` matches only ASCII digits and the template and placeholder are ASCII.
