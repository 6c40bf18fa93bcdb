/** The two calls into the hosted model, with the model itself abstracted
    away: the instruction text sent for analysis, the optional context
    clause, the fallback for an empty reply, the scan of the image reply for
    inline data, and the rule that every failure reaches the caller as one
    generic message. The remote replies are parameters. */
module GeminiService {
  import opened Common
  import opened Text
  import opened InstructionTemplate

  /** Marks where the voice-over script starts in the analysis reply. */
  const SEPARATOR: string := "---VOICE_OVER_SCRIPT---"

  /** The default of the `language` parameter. */
  const DEFAULT_LANGUAGE: string := "English"

  const PROMPT_PLACEHOLDER: string := "Failed to generate prompt."
  const ANALYSIS_FAILED: string := "Failed to analyze image and generate prompt. Please try again."
  const IMAGE_FAILED: string := "Failed to generate image. Please try again."
  /** Thrown when the reply holds no image; the catch replaces it by IMAGE_FAILED. */
  const NO_IMAGE_DATA: string := "No image data found in response."
  const PNG_DATA_URI_PREFIX: string := "data:image/png;base64,"

  const CONTEXT_PREFIX: string := "ADDITIONAL CONTEXT FROM USER: \""
  const CONTEXT_SUFFIX: string := "\". Use this to inform the mood, tone, and target audience."

  // ---------------------------------------------------------------------
  // The analysis instruction

  /** The clause that carries the user's product context, present only when
      the context is truthy. */
  function ContextInstruction(additionalContext: Option<string>): (r: string)
    ensures r == "" <==> !Truthy(additionalContext)
    ensures Truthy(additionalContext) ==>
      && |r| == |CONTEXT_PREFIX| + |additionalContext.value| + |CONTEXT_SUFFIX|
      && r[..|CONTEXT_PREFIX|] == CONTEXT_PREFIX
      && OccursAt(r, additionalContext.value, |CONTEXT_PREFIX|)
      && r[|r| - |CONTEXT_SUFFIX|..] == CONTEXT_SUFFIX
  {
    if Truthy(additionalContext) then CONTEXT_PREFIX + additionalContext.value + CONTEXT_SUFFIX else ""
  }

  /** Reads the user's context back out of a context clause. */
  function ContextOf(clause: string): Option<string>
  {
    if |clause| >= |CONTEXT_PREFIX| + |CONTEXT_SUFFIX|
       && clause[..|CONTEXT_PREFIX|] == CONTEXT_PREFIX
       && clause[|clause| - |CONTEXT_SUFFIX|..] == CONTEXT_SUFFIX
    then Some(clause[|CONTEXT_PREFIX|..|clause| - |CONTEXT_SUFFIX|])
    else None
  }

  /** The context is inserted verbatim: it can be read back from the clause,
      and an empty or missing context leaves no clause at all. */
  lemma ContextRoundTrip(additionalContext: Option<string>)
    ensures ContextOf(ContextInstruction(additionalContext)) ==
      (if Truthy(additionalContext) then additionalContext else None)
  {
    var r := ContextInstruction(additionalContext);
    if Truthy(additionalContext) {
      var c := additionalContext.value;
      assert r[|CONTEXT_PREFIX|..|r| - |CONTEXT_SUFFIX|] == c;
    }
  }

  /** A missing `language` argument takes the default; an explicit one,
      even empty, is kept. */
  function LanguageOrDefault(language: Option<string>): (r: string)
    ensures language.None? ==> r == DEFAULT_LANGUAGE
    ensures language.Some? ==> r == language.value
  {
    match language
    case None => DEFAULT_LANGUAGE
    case Some(l) => l
  }

  /** The instruction a template gives for a context and a language. */
  function Fill(t: Template, additionalContext: Option<string>, language: Option<string>): string
  {
    t.opening + ContextInstruction(additionalContext) + t.format + SEPARATOR
      + Join(t.scriptParts, LanguageOrDefault(language))
  }

  /** The whole instruction sent with the image for analysis. */
  function AnalysisInstruction(additionalContext: Option<string>, language: Option<string>): string
  {
    Fill(TEMPLATE, additionalContext, language)
  }

  /** Where the variable parts of an instruction `r` built from `t` sit:
      the separator follows the format block, the language comes right after
      the first script piece, and the user's context sits verbatim inside its
      clause; without a context nothing stands between the opening and the
      format block. */
  predicate LaidOut(t: Template, r: string, additionalContext: Option<string>, language: Option<string>) {
    var sepAt := |t.opening| + |ContextInstruction(additionalContext)| + |t.format|;
    && |t.scriptParts| >= 2
    && OccursAt(r, SEPARATOR, sepAt)
    && OccursAt(r, LanguageOrDefault(language), sepAt + |SEPARATOR| + |t.scriptParts[0]|)
    && (Truthy(additionalContext) ==>
          && OccursAt(r, additionalContext.value, |t.opening| + |CONTEXT_PREFIX|)
          && |t.opening| + |CONTEXT_PREFIX| + |additionalContext.value| <= sepAt)
    && (!Truthy(additionalContext) ==>
          r == t.opening + t.format + SEPARATOR + Join(t.scriptParts, LanguageOrDefault(language)))
  }

  /** Any template with at least two script pieces is filled in that layout. */
  lemma {:induction false} FillLayout(t: Template, additionalContext: Option<string>, language: Option<string>)
    requires |t.scriptParts| >= 2
    ensures LaidOut(t, Fill(t, additionalContext, language), additionalContext, language)
  {
    var clause := ContextInstruction(additionalContext);
    var lang := LanguageOrDefault(language);
    var script := Join(t.scriptParts, lang);
    Layout(t.opening, clause, t.format, SEPARATOR, script);
    assert script == t.scriptParts[0] + lang + Join(t.scriptParts[1..], lang);
    OccursInMiddle(t.scriptParts[0], lang, Join(t.scriptParts[1..], lang));
    OccursAfterPrefix(t.opening + clause + t.format + SEPARATOR, script, lang, |t.scriptParts[0]|);
    if Truthy(additionalContext) {
      OccursExtend(clause, t.format + SEPARATOR + script, additionalContext.value, |CONTEXT_PREFIX|);
    }
  }

  /** The instruction sent for analysis has that layout: it holds the
      separator that the reply is later split on, names the language (the
      default when none is given) right after the separator's directive, and
      carries the user's context verbatim. */
  lemma InstructionLayout(additionalContext: Option<string>, language: Option<string>)
    ensures LaidOut(TEMPLATE, AnalysisInstruction(additionalContext, language), additionalContext, language)
  {
    TemplateHasScript();
    FillLayout(TEMPLATE, additionalContext, language);
  }

  /** The language is written into the script directives more than once. */
  lemma TemplateHasScript()
    ensures |TEMPLATE.scriptParts| >= 2
  {
  }

  /** Where the pieces of a five-piece concatenation sit. */
  lemma Layout(opening: string, clause: string, format: string, sep: string, script: string)
    ensures var r := opening + clause + format + sep + script;
      && OccursAt(r, sep, |opening| + |clause| + |format|)
      && r == opening + (clause + (format + sep + script))
      && (clause == "" ==> r == opening + format + sep + script)
      && (forall pat: string, i: nat :: OccursAt(clause + (format + sep + script), pat, i) ==>
            OccursAt(r, pat, |opening| + i))
  {
    var r := opening + clause + format + sep + script;
    OccursInMiddle(opening + clause + format, sep, script);
    forall pat: string, i: nat | OccursAt(clause + (format + sep + script), pat, i)
      ensures OccursAt(r, pat, |opening| + i)
    {
      OccursAfterPrefix(opening, clause + (format + sep + script), pat, i);
    }
  }

  // ---------------------------------------------------------------------
  // The analysis call

  /** What the text model's call yields: a reply whose `text` may be
      missing, or a failure (network, credentials, SDK). */
  datatype TextReply = TextReply(text: Option<string>) | TextCallFailed

  /** `response.text || placeholder`: never empty. */
  function ReplyText(text: Option<string>): (r: string)
    ensures r != ""
    ensures Truthy(text) ==> r == text.value
    ensures !Truthy(text) ==> r == PROMPT_PLACEHOLDER
  {
    OrElse(text, Some(PROMPT_PLACEHOLDER)).value
  }

  /** `generateAutoPrompt` once the model has answered: the reply's text,
      or the one generic message whatever went wrong. */
  function GenerateAutoPrompt(reply: TextReply): (r: Result<string, string>)
    ensures r.Ok? <==> reply.TextReply?
    ensures r.Ok? ==> r.value != "" && r.value == ReplyText(reply.text)
    ensures r.Err? ==> r.error == ANALYSIS_FAILED
  {
    match reply
    case TextReply(text) => Ok(ReplyText(text))
    case TextCallFailed => Err(ANALYSIS_FAILED)
  }

  // ---------------------------------------------------------------------
  // The image call

  datatype InlineData = InlineData(mimeType: Option<string>, data: Option<string>)
  datatype Part = Part(text: Option<string>, inlineData: Option<InlineData>)
  datatype Content = Content(parts: Option<seq<Part>>)
  datatype Candidate = Candidate(content: Option<Content>)
  datatype ImageResponse = ImageResponse(candidates: Option<seq<Candidate>>)

  /** What the image model's call yields: a response, or a failure. */
  datatype ImageReply = ImageReplied(response: ImageResponse) | ImageCallFailed

  /** `response.candidates?.[0]?.content?.parts || []`. */
  function ResponseParts(response: ImageResponse): (r: seq<Part>)
    ensures r != [] ==>
      && response.candidates.Some? && |response.candidates.value| > 0
      && response.candidates.value[0].content.Some?
      && response.candidates.value[0].content.value.parts == Some(r)
    ensures (&& response.candidates.Some? && |response.candidates.value| > 0
             && response.candidates.value[0].content.Some?
             && response.candidates.value[0].content.value.parts.Some?) ==>
      r == response.candidates.value[0].content.value.parts.value
  {
    match response.candidates
    case None => []
    case Some(cs) =>
      if cs == [] then []
      else match cs[0].content
        case None => []
        case Some(c) =>
          match c.parts
          case None => []
          case Some(ps) => ps
  }

  /** `part.inlineData && part.inlineData.data`. */
  predicate HasImageData(part: Part) {
    part.inlineData.Some? && Truthy(part.inlineData.value.data)
  }

  /** The scan over the parts: the first part carrying image data, as a PNG
      data URI; parts without data before it are skipped. */
  method FindImageDataUri(parts: seq<Part>) returns (uri: Option<string>)
    ensures uri.None? <==> forall i :: 0 <= i < |parts| ==> !HasImageData(parts[i])
    ensures uri.Some? ==> exists i :: (0 <= i < |parts| && HasImageData(parts[i])
      && (forall j :: 0 <= j < i ==> !HasImageData(parts[j]))
      && uri.value == PNG_DATA_URI_PREFIX + parts[i].inlineData.value.data.value)
  {
    for i := 0 to |parts|
      invariant forall j :: 0 <= j < i ==> !HasImageData(parts[j])
    {
      var part := parts[i];
      if part.inlineData.Some? && Truthy(part.inlineData.value.data) {
        return Some(PNG_DATA_URI_PREFIX + part.inlineData.value.data.value);
      }
    }
    return None;
  }

  /** `generateProductImage` once the model has answered. A reply without
      image data throws NO_IMAGE_DATA inside the `try`; the `catch` turns it,
      like any transport failure, into IMAGE_FAILED, so the caller cannot
      tell the two apart. */
  method GenerateProductImage(reply: ImageReply) returns (r: Result<string, string>)
    ensures r.Err? ==> r.error == IMAGE_FAILED
    ensures reply.ImageCallFailed? ==> r == Err(IMAGE_FAILED)
    ensures reply.ImageReplied? ==> var parts := ResponseParts(reply.response);
      && (r.Err? <==> forall i :: 0 <= i < |parts| ==> !HasImageData(parts[i]))
      && (r.Ok? ==> exists i :: (0 <= i < |parts| && HasImageData(parts[i])
            && (forall j :: 0 <= j < i ==> !HasImageData(parts[j]))
            && r.value == PNG_DATA_URI_PREFIX + parts[i].inlineData.value.data.value))
  {
    var attempt: Result<string, string>;
    match reply {
      case ImageCallFailed =>
        attempt := Err("");
      case ImageReplied(response) =>
        var uri := FindImageDataUri(ResponseParts(response));
        if uri.Some? {
          attempt := Ok(uri.value);
        } else {
          attempt := Err(NO_IMAGE_DATA);
        }
    }
    match attempt {
      case Ok(url) => r := Ok(url);
      case Err(_) => r := Err(IMAGE_FAILED);
    }
  }
}
