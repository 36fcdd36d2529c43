/**
 * The prompt sent upstream: the fixed AVM instruction template with its one
 * `{address}` placeholder replaced by the caller's address (index.js, lines 17-18 and 30).
 */
module Prompt {
  import opened Wrappers
  import opened JsString

  const Placeholder: string := "{address}"

  /** No character of `s` is `{`, so `{address}` cannot start anywhere in it. */
  predicate BraceFree(s: string) {
    forall i :: 0 <= i < |s| ==> s[i] != '{'
  }

  /** A piece of the template's instruction text. */
  type TemplateLine = s: string | BraceFree(s) witness ""

  /**
   * The instruction text before the placeholder, verbatim, cut into short lines
   * so that the absence of `{` is checked one line at a time.
   */
  const Line00: TemplateLine := "Act as an expert real estate "
  const Line01: TemplateLine := "AVM (Automated Valuation "
  const Line02: TemplateLine := "Model). Your task is to "
  const Line03: TemplateLine := "provide a highly accurate, "
  const Line04: TemplateLine := "up-to-date fair market value "
  const Line05: TemplateLine := "for the property at the "
  const Line06: TemplateLine := "following address. "
  const Line07: TemplateLine := "Methodology: 1. Property "
  const Line08: TemplateLine := "Lookup: First, identify the "
  const Line09: TemplateLine := "core attributes of the "
  const Line10: TemplateLine := "subject property from public "
  const Line11: TemplateLine := "records (e.g., Zillow, "
  const Line12: TemplateLine := "Redfin, county records). Key "
  const Line13: TemplateLine := "attributes include: living "
  const Line14: TemplateLine := "area square footage, "
  const Line15: TemplateLine := "bed/bath count, and lot "
  const Line16: TemplateLine := "size. 2. Comparable Sales: "
  const Line17: TemplateLine := "Second, find at least 3 "
  const Line18: TemplateLine := "recent comparable sales "
  const Line19: TemplateLine := "(comps) of similar "
  const Line20: TemplateLine := "properties sold within the "
  const Line21: TemplateLine := "last 12 months in the "
  const Line22: TemplateLine := "immediate neighborhood. 3. "
  const Line23: TemplateLine := "Market Adjustment: Third, "
  const Line24: TemplateLine := "adjust the valuation based "
  const Line25: TemplateLine := "on current local market "
  const Line26: TemplateLine := "trends and price per square "
  const Line27: TemplateLine := "foot. Do not use outdated "
  const Line28: TemplateLine := "tax assessments or old sale "
  const Line29: TemplateLine := "prices as the final value. "
  const Line30: TemplateLine := "4. Final Estimate: "
  const Line31: TemplateLine := "Synthesize all data into a "
  const Line32: TemplateLine := "single estimated value. Your "
  const Line33: TemplateLine := "response must be a single "
  const Line34: TemplateLine := "integer representing the "
  const Line35: TemplateLine := "fair market value in USD. Do "
  const Line36: TemplateLine := "not include any text, dollar "
  const Line37: TemplateLine := "signs, or commas. Address: "

  const TemplateLines: seq<TemplateLine> :=
    [Line00, Line01, Line02, Line03, Line04, Line05,
     Line06, Line07, Line08, Line09, Line10, Line11,
     Line12, Line13, Line14, Line15, Line16, Line17,
     Line18, Line19, Line20, Line21, Line22, Line23,
     Line24, Line25, Line26, Line27, Line28, Line29,
     Line30, Line31, Line32, Line33, Line34, Line35,
     Line36, Line37]

  /** The lines one after the other; no `{` can appear in the result. */
  function Join(lines: seq<TemplateLine>): (s: string)
    ensures BraceFree(s)
  {
    if lines == [] then "" else lines[0] + Join(lines[1..])
  }

  /** Everything in the template before `{address}`. */
  const Instructions: string := Join(TemplateLines)

  /** AVM_PROMPT_TEMPLATE: the instructions, ending with the placeholder. */
  const AvmPromptTemplate: string := Instructions + Placeholder

  /** The template holds exactly one `{address}`, and it is its final token. */
  lemma PlaceholderOnlyAtEnd()
    ensures forall j :: MatchesAt(AvmPromptTemplate, Placeholder, j) <==> j == |Instructions|
    ensures IndexOf(AvmPromptTemplate, Placeholder) == Some(|Instructions|)
  {
    assert MatchesAt(AvmPromptTemplate, Placeholder, |Instructions|) by {
      assert AvmPromptTemplate[|Instructions|..|Instructions| + |Placeholder|] == Placeholder;
    }
    forall j | MatchesAt(AvmPromptTemplate, Placeholder, j) ensures j == |Instructions| {
      assert AvmPromptTemplate[j] == AvmPromptTemplate[j..j + |Placeholder|][0] == '{';
    }
  }

  /** `AVM_PROMPT_TEMPLATE.replace('{address}', address)`. */
  function BuildPrompt(address: string): (prompt: string)
    ensures prompt == Instructions + Expand(address, Placeholder, Instructions, "")
  {
    PlaceholderOnlyAtEnd();
    assert AvmPromptTemplate == Instructions + Placeholder + "";
    ReplaceAtFirstOccurrence(Instructions, Placeholder, "", address);
    Replace(AvmPromptTemplate, Placeholder, address)
  }

  /**
   * For an address without `$`, the prompt is the template with the address
   * standing in for the placeholder; every other character is unchanged.
   */
  lemma BuildPromptWithoutDollar(address: string)
    requires DollarFree(address)
    ensures BuildPrompt(address) == Instructions + address
    ensures BuildPrompt(address)[..|Instructions|] == AvmPromptTemplate[..|Instructions|]
    ensures BuildPrompt(address)[|Instructions|..] == address
  {
  }

  /** Concatenation regrouped, stated apart so that the template's text stays out of it. */
  lemma Regroup(w: string, x: string, y: string, z: string)
    ensures w + (x + y + z) == w + x + y + z
  {
  }

  /**
   * The `$` patterns of `replace` reach into the prompt: wherever `$$` appears
   * after `$`-free text of the address it becomes `$`, and the rest of the
   * address is expanded on its own.
   */
  lemma DoubleDollarInAddress(plain: string, rest: string)
    requires DollarFree(plain)
    ensures BuildPrompt(plain + "$$" + rest) == Instructions + plain + "$" + Expand(rest, Placeholder, Instructions, "")
  {
    ExpandDoubleDollar(plain, rest, Placeholder, Instructions, "");
    Regroup(Instructions, plain, "$", Expand(rest, Placeholder, Instructions, ""));
  }

  /**
   * Wherever `$&` appears after `$`-free text of the address, the placeholder
   * itself is put back in place of those two characters.
   */
  lemma MatchReferenceInAddress(plain: string, rest: string)
    requires DollarFree(plain)
    ensures BuildPrompt(plain + "$&" + rest) == Instructions + plain + Placeholder + Expand(rest, Placeholder, Instructions, "")
  {
    ExpandMatchReferences(plain, rest, Placeholder, Instructions, "");
    Regroup(Instructions, plain, Placeholder, Expand(rest, Placeholder, Instructions, ""));
  }
}
