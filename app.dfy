/** The controller of App.tsx: the uploaded image, the two inputs, and the
    two independent flows, analysis (text prompt and voice-over script) and
    image generation. Each asynchronous handler is split into a `Begin`
    method, which does everything up to the awaited call and returns the
    request it would send, and a `Complete` method, which takes what the
    call produced. */
module App {
  import opened Common
  import opened Text
  import opened Types
  import opened GeminiService
  import opened ResultDisplay

  /** The language the selector starts on. */
  const INITIAL_LANGUAGE: string := "English"
  /** Shown when a failed analysis carries no message. */
  const ANALYSIS_FALLBACK: string := "Something went wrong during generation."
  /** Shown when a failed image generation carries no message. */
  const IMAGE_FALLBACK: string := "Failed to generate image."

  /** The arguments of `generateAutoPrompt`. */
  datatype AnalysisRequest = AnalysisRequest(base64: string, mimeType: string, productDescription: string, language: string)

  /** The arguments of `generateProductImage`. */
  datatype ImageRequest = ImageRequest(base64: string, mimeType: string, prompt: string)

  /** The prompt and, when the separator occurs, the script that a model
      answer is split into. */
  datatype Parsed = Parsed(prompt: string, script: Option<string>)

  /** The split of `handleGeneratePrompt`: the first two pieces of the
      answer split on the separator, trimmed, or the answer as it is. */
  function ParseResponse(full: string): (p: Parsed)
  {
    var parts := Split(full, SEPARATOR);
    if |parts| > 1 then Parsed(Trim(parts[0]), Some(Trim(parts[1]))) else Parsed(full, None)
  }

  /** What the split means: without a separator the answer is kept whole
      and there is no script; otherwise the prompt is the trimmed text
      before the first separator and the script the trimmed text after it,
      up to the next separator or the end. */
  lemma ParseResponseSplits(full: string)
    ensures Find(full, SEPARATOR).None? ==> ParseResponse(full) == Parsed(full, None)
    ensures Find(full, SEPARATOR).Some? ==>
      var i := Find(full, SEPARATOR).value;
      ParseResponse(full)
        == Parsed(Trim(full[..i]), Some(Trim(BeforeFirst(full[i + |SEPARATOR|..], SEPARATOR))))
  {
    SplitHead(full, SEPARATOR);
  }

  /** An answer laid out as the instruction asks, the prompt, then the
      separator on a line of its own, then the script, is split back into the
      trimmed prompt and the trimmed script (up to any further separator). */
  lemma {:induction false} ParseFormatted(prompt: string, rest: string)
    requires Find(prompt, SEPARATOR).None?
    requires prompt == [] || IsSpace(prompt[|prompt| - 1])
    ensures ParseResponse(prompt + SEPARATOR + rest)
      == Parsed(Trim(prompt), Some(Trim(BeforeFirst(rest, SEPARATOR))))
  {
    var full := prompt + SEPARATOR + rest;
    forall k | 0 <= k < |SEPARATOR|
      ensures !IsSpace(SEPARATOR[k])
    {
      SeparatorHasNoSpace(k);
    }
    FindAfterSpacedPrefix(prompt, SEPARATOR, rest);
    ParseResponseSplits(full);
    assert Find(full, SEPARATOR) == Some(|prompt|);
    assert full[..|prompt|] == prompt;
    assert full[|prompt| + |SEPARATOR|..] == rest;
  }

  /** The separator is written without white space. */
  lemma SeparatorHasNoSpace(k: nat)
    requires k < |SEPARATOR|
    ensures !IsSpace(SEPARATOR[k])
  {
    assert SEPARATOR[k] in "-VOICE_OVRSRPT";
  }

  /** An answer that begins with the separator completes the analysis with
      an empty prompt: the status says COMPLETED while the display stays on
      its empty view. */
  lemma LeadingSeparatorGivesEmptyPrompt(rest: string)
    ensures ParseResponse(SEPARATOR + rest).prompt == ""
    ensures ParseResponse(SEPARATOR + rest).script.Some?
    ensures ViewFor(None, false, Some(ParseResponse(SEPARATOR + rest).prompt)) == EmptyView
  {
    var s := SEPARATOR + rest;
    assert s == [] + SEPARATOR + rest;
    ParseFormatted([], rest);
    assert Trim([]) == [];
  }

  /** The error the result display receives, as App.tsx passes it:
      `error || genError`. */
  function DisplayedErrorAsWritten(error: Option<string>, genError: Option<string>): (r: Option<string>)
    ensures Truthy(r) <==> Truthy(error) || Truthy(genError)
    ensures Truthy(error) ==> r == error
  {
    OrElse(error, genError)
  }

  /** A concrete case: a completed analysis, then an image failure. */
  lemma ImageFailureExample()
    ensures ViewFor(DisplayedErrorAsWritten(None, Some(IMAGE_FAILED)), false, Some("Panel 1: a shot"))
      == ErrorView(IMAGE_FAILED)
    ensures ViewFor(DisplayedError(None, Some(IMAGE_FAILED)), false, Some("Panel 1: a shot"))
      == TabsView("Panel 1: a shot")
  {
  }

  /** The error the result display is meant to receive: only the analysis
      error replaces the display; an image failure is reported inside the
      preview tab. */
  function DisplayedError(error: Option<string>, genError: Option<string>): (r: Option<string>)
    ensures Truthy(r) <==> Truthy(error)
  {
    error
  }

  class Controller {
    var currentImage: Option<ImageFile>
    var productDescription: string
    var language: string

    var status: AnalysisStatus
    var result: Option<string>
    var script: Option<string>
    var error: Option<string>

    var genStatus: GenerationStatus
    var generatedImageUrl: Option<string>
    var genError: Option<string>

    /** What each status says about the data beside it: nothing is held
        while idle or analyzing, a completed analysis has a result, a failure
        has a message; likewise for image generation. */
    predicate Valid()
      reads this
    {
      && (status == AnalysisStatus.IDLE || status == AnalysisStatus.ANALYZING ==>
            result.None? && script.None? && error.None?)
      && (status == AnalysisStatus.COMPLETED ==> result.Some?)
      && (status == AnalysisStatus.ERROR ==> Truthy(error))
      && (script.Some? ==> result.Some?)
      && (genStatus == GenerationStatus.IDLE || genStatus == GenerationStatus.GENERATING ==>
            generatedImageUrl.None? && genError.None?)
      && (genStatus == GenerationStatus.COMPLETED ==> generatedImageUrl.Some?)
      && (genStatus == GenerationStatus.ERROR ==> Truthy(genError))
    }

    /** The view the result display shows, as App.tsx wires it: either
        flow's failure takes the whole display, the analysis error first;
        the spinner and the tabs only appear while neither flow has failed. */
    function Display(): (v: View)
      reads this
      ensures v.ErrorView? <==> Truthy(error) || Truthy(genError)
      ensures v.ErrorView? ==> v.message == (if Truthy(error) then error.value else genError.value)
      ensures v.LoadingView? <==> !Truthy(error) && !Truthy(genError) && status == AnalysisStatus.ANALYZING
      ensures v.TabsView? <==>
        !Truthy(error) && !Truthy(genError) && status != AnalysisStatus.ANALYZING && Truthy(result)
      ensures v.TabsView? ==> Truthy(result) && v.prompt == result.value
    {
      ViewFor(DisplayedErrorAsWritten(error, genError), status == AnalysisStatus.ANALYZING, result)
    }

    /** The view the result display is meant to show: only the analysis
        error replaces it, whatever the image generation did. */
    function IntendedDisplay(): (v: View)
      reads this
      ensures v.ErrorView? <==> Truthy(error)
      ensures v.LoadingView? <==> !Truthy(error) && status == AnalysisStatus.ANALYZING
      ensures v.TabsView? <==> !Truthy(error) && status != AnalysisStatus.ANALYZING && Truthy(result)
    {
      ViewFor(DisplayedError(error, genError), status == AnalysisStatus.ANALYZING, result)
    }

    /** As written, a failed image generation replaces the whole result
        display, prompt and tabs included, with the error view, so the preview
        tab's failure notice and its retry button are never on screen. */
    lemma ImageFailureHidesTabsAsWritten()
      requires Valid()
      ensures genStatus == GenerationStatus.ERROR ==> Display().ErrorView? && !Display().TabsView?
    {
    }

    /** As written, an image failure also hides a new analysis: the failure
        survives `BeginGeneratePrompt`, so the display shows the old image
        error instead of the spinner while the analysis runs. */
    lemma ImageFailureHidesAnalysisAsWritten()
      requires Valid() && status == AnalysisStatus.ANALYZING && genStatus == GenerationStatus.ERROR
      ensures Display() == ErrorView(genError.value)
      ensures IntendedDisplay() == LoadingView
    {
    }

    /** With the intended precedence an image failure leaves the prompt on
        screen, and the preview tab shows the failure notice with its retry. */
    lemma ImageFailureShownInPreview()
      requires Valid() && genStatus == GenerationStatus.ERROR
      requires !Truthy(error) && status != AnalysisStatus.ANALYZING && Truthy(result)
      ensures IntendedDisplay() == TabsView(result.value)
      ensures PreviewFor(genStatus, generatedImageUrl).failure
    {
    }

    /** The preview tab in a consistent state: the invitation shows exactly
        while nothing has been generated, the spinner alone while generation
        runs, and a picture only after generation came back. */
    lemma PreviewIsCoherent()
      requires Valid()
      ensures var p := PreviewFor(genStatus, generatedImageUrl);
        && (p.invite <==> genStatus == GenerationStatus.IDLE)
        && (p.invite ==> p.image.None?)
        && (p.spinner ==> !p.invite && !p.failure && p.image.None?)
        && (p.failure ==> !p.invite && !p.spinner)
        && (p.image.Some? ==> genStatus == GenerationStatus.COMPLETED || genStatus == GenerationStatus.ERROR)
        && (genStatus == GenerationStatus.COMPLETED && Truthy(generatedImageUrl) ==> p.image == generatedImageUrl)
    {
    }

    constructor()
      ensures Valid()
      ensures currentImage.None? && productDescription == "" && language == INITIAL_LANGUAGE
      ensures status == AnalysisStatus.IDLE && result.None? && script.None? && error.None?
      ensures genStatus == GenerationStatus.IDLE && generatedImageUrl.None? && genError.None?
    {
      currentImage := None;
      productDescription := "";
      language := INITIAL_LANGUAGE;
      status := AnalysisStatus.IDLE;
      result := None;
      script := None;
      error := None;
      genStatus := GenerationStatus.IDLE;
      generatedImageUrl := None;
      genError := None;
    }

    /** `handleImageSelect`: choosing or clearing the image resets both
        flows, whatever state they were in; the two inputs are kept. */
    method SelectImage(image: Option<ImageFile>)
      modifies this
      ensures Valid()
      ensures currentImage == image
      ensures status == AnalysisStatus.IDLE && result.None? && script.None? && error.None?
      ensures genStatus == GenerationStatus.IDLE && generatedImageUrl.None? && genError.None?
      ensures productDescription == old(productDescription) && language == old(language)
    {
      currentImage := image;
      result := None;
      script := None;
      error := None;
      status := AnalysisStatus.IDLE;
      generatedImageUrl := None;
      genStatus := GenerationStatus.IDLE;
      genError := None;
    }

    /** The product context text area. */
    method SetProductDescription(description: string)
      requires Valid()
      modifies this
      ensures Valid()
      ensures productDescription == description
      ensures currentImage == old(currentImage) && language == old(language)
      ensures status == old(status) && result == old(result) && script == old(script) && error == old(error)
      ensures genStatus == old(genStatus) && generatedImageUrl == old(generatedImageUrl) && genError == old(genError)
    {
      productDescription := description;
    }

    /** The voice-over language selector. */
    method SetLanguage(choice: string)
      requires Valid()
      modifies this
      ensures Valid()
      ensures language == choice
      ensures currentImage == old(currentImage) && productDescription == old(productDescription)
      ensures status == old(status) && result == old(result) && script == old(script) && error == old(error)
      ensures genStatus == old(genStatus) && generatedImageUrl == old(generatedImageUrl) && genError == old(genError)
    {
      language := choice;
    }

    /** `handleGeneratePrompt` up to the awaited call: nothing happens
        without an image; otherwise the analysis starts afresh and the
        request carries the image and the two inputs. */
    method BeginGeneratePrompt() returns (request: Option<AnalysisRequest>)
      requires Valid()
      modifies this
      ensures Valid()
      ensures old(currentImage).None? ==>
        && request.None? && status == old(status)
        && result == old(result) && script == old(script) && error == old(error)
      ensures old(currentImage).Some? ==>
        && request == Some(AnalysisRequest(old(currentImage).value.base64, old(currentImage).value.mimeType,
                                           productDescription, language))
        && status == AnalysisStatus.ANALYZING && error.None? && result.None? && script.None?
      ensures currentImage == old(currentImage)
      ensures productDescription == old(productDescription) && language == old(language)
      ensures genStatus == old(genStatus) && generatedImageUrl == old(generatedImageUrl) && genError == old(genError)
    {
      if currentImage.None? {
        return None;
      }
      status := AnalysisStatus.ANALYZING;
      error := None;
      result := None;
      script := None;
      request := Some(AnalysisRequest(currentImage.value.base64, currentImage.value.mimeType,
                                      productDescription, language));
    }

    /** `handleGeneratePrompt` after the call. On success the answer is
        split (the script is only written when the separator occurs) and the
        analysis is COMPLETED; on failure the message, or the fallback when
        it is empty, is stored and the analysis is in ERROR, the result and
        script left as they were. Nothing checks that this analysis is still
        the current one, so a late answer is written all the same. */
    method CompleteGeneratePrompt(outcome: Result<string, string>)
      requires Valid()
      modifies this
      ensures Valid()
      ensures outcome.Ok? ==>
        var parsed := ParseResponse(outcome.value);
        && status == AnalysisStatus.COMPLETED
        && result == Some(parsed.prompt)
        && script == (if parsed.script.Some? then parsed.script else old(script))
        && error == old(error)
      ensures outcome.Err? ==>
        && status == AnalysisStatus.ERROR
        && error == Some(MessageOr(outcome.error, ANALYSIS_FALLBACK))
        && result == old(result) && script == old(script)
      ensures currentImage == old(currentImage)
      ensures productDescription == old(productDescription) && language == old(language)
      ensures genStatus == old(genStatus) && generatedImageUrl == old(generatedImageUrl) && genError == old(genError)
    {
      match outcome {
        case Ok(fullResponse) =>
          var parsed := ParseResponse(fullResponse);
          result := Some(parsed.prompt);
          if parsed.script.Some? {
            script := parsed.script;
          }
          status := AnalysisStatus.COMPLETED;
        case Err(message) =>
          error := Some(MessageOr(message, ANALYSIS_FALLBACK));
          status := AnalysisStatus.ERROR;
      }
    }

    /** The whole of `handleGeneratePrompt` when nothing else happens while
        the model works, with the service's handling of its answer. */
    method GeneratePrompt(reply: TextReply)
      requires Valid()
      modifies this
      ensures Valid()
      ensures old(currentImage).None? ==>
        && status == old(status)
        && result == old(result) && script == old(script) && error == old(error)
      ensures old(currentImage).Some? && reply.TextCallFailed? ==>
        && status == AnalysisStatus.ERROR && error == Some(ANALYSIS_FAILED)
        && result.None? && script.None?
      ensures old(currentImage).Some? && reply.TextReply? ==>
        var parsed := ParseResponse(ReplyText(reply.text));
        && status == AnalysisStatus.COMPLETED && error.None?
        && result == Some(parsed.prompt) && script == parsed.script
      ensures currentImage == old(currentImage)
      ensures productDescription == old(productDescription) && language == old(language)
      ensures genStatus == old(genStatus) && generatedImageUrl == old(generatedImageUrl) && genError == old(genError)
    {
      var request := BeginGeneratePrompt();
      if request.Some? {
        CompleteGeneratePrompt(GenerateAutoPrompt(reply));
      }
    }

    /** `handleGenerateImage` up to the awaited call. The prompt is the
        override when it is non-empty, the result otherwise; without an image
        or without a prompt nothing happens. Otherwise generation starts and
        the previous picture and failure are cleared. */
    method BeginGenerateImage(promptOverride: Option<string>) returns (request: Option<ImageRequest>)
      requires Valid()
      modifies this
      ensures Valid()
      ensures var promptToUse := OrElse(promptOverride, old(result));
        if old(currentImage).None? || !Truthy(promptToUse) then
          && request.None? && genStatus == old(genStatus)
          && generatedImageUrl == old(generatedImageUrl) && genError == old(genError)
        else
          && request == Some(ImageRequest(old(currentImage).value.base64, old(currentImage).value.mimeType,
                                          promptToUse.value))
          && genStatus == GenerationStatus.GENERATING && genError.None? && generatedImageUrl.None?
      ensures currentImage == old(currentImage)
      ensures productDescription == old(productDescription) && language == old(language)
      ensures status == old(status) && result == old(result) && script == old(script) && error == old(error)
    {
      var promptToUse := OrElse(promptOverride, result);
      if currentImage.None? || !Truthy(promptToUse) {
        return None;
      }
      genStatus := GenerationStatus.GENERATING;
      genError := None;
      generatedImageUrl := None;
      request := Some(ImageRequest(currentImage.value.base64, currentImage.value.mimeType, promptToUse.value));
    }

    /** `handleGenerateImage` after the call: the picture and COMPLETED, or
        the message (or the fallback) and ERROR. The analysis is untouched. */
    method CompleteGenerateImage(outcome: Result<string, string>)
      requires Valid()
      modifies this
      ensures Valid()
      ensures outcome.Ok? ==>
        && genStatus == GenerationStatus.COMPLETED && generatedImageUrl == Some(outcome.value)
        && genError == old(genError)
      ensures outcome.Err? ==>
        && genStatus == GenerationStatus.ERROR
        && genError == Some(MessageOr(outcome.error, IMAGE_FALLBACK))
        && generatedImageUrl == old(generatedImageUrl)
      ensures currentImage == old(currentImage)
      ensures productDescription == old(productDescription) && language == old(language)
      ensures status == old(status) && result == old(result) && script == old(script) && error == old(error)
    {
      match outcome {
        case Ok(imgUrl) =>
          generatedImageUrl := Some(imgUrl);
          genStatus := GenerationStatus.COMPLETED;
        case Err(message) =>
          genError := Some(MessageOr(message, IMAGE_FALLBACK));
          genStatus := GenerationStatus.ERROR;
      }
    }

    /** The whole of `handleGenerateImage` when nothing else happens while
        the model works: any failure, a missing picture included, surfaces
        as the service's one generic message. */
    method GenerateImage(promptOverride: Option<string>, reply: ImageReply)
      requires Valid()
      modifies this
      ensures Valid()
      ensures old(currentImage).None? || !Truthy(OrElse(promptOverride, old(result))) ==>
        && genStatus == old(genStatus) && generatedImageUrl == old(generatedImageUrl) && genError == old(genError)
      ensures old(currentImage).Some? && Truthy(OrElse(promptOverride, old(result))) ==>
        || (genStatus == GenerationStatus.ERROR && genError == Some(IMAGE_FAILED) && generatedImageUrl.None?)
        || (genStatus == GenerationStatus.COMPLETED && genError.None? && generatedImageUrl.Some?
            && PNG_DATA_URI_PREFIX <= generatedImageUrl.value)
      ensures old(currentImage).Some? && reply.ImageCallFailed? && Truthy(OrElse(promptOverride, old(result))) ==>
        genStatus == GenerationStatus.ERROR && genError == Some(IMAGE_FAILED)
      ensures old(currentImage).Some? && reply.ImageReplied? && Truthy(OrElse(promptOverride, old(result))) ==>
        var parts := ResponseParts(reply.response);
        && (genStatus == GenerationStatus.ERROR <==> forall i :: 0 <= i < |parts| ==> !HasImageData(parts[i]))
        && (genStatus == GenerationStatus.COMPLETED ==> exists i :: (0 <= i < |parts| && HasImageData(parts[i])
              && (forall j :: 0 <= j < i ==> !HasImageData(parts[j]))
              && generatedImageUrl == Some(PNG_DATA_URI_PREFIX + parts[i].inlineData.value.data.value)))
      ensures currentImage == old(currentImage)
      ensures productDescription == old(productDescription) && language == old(language)
      ensures status == old(status) && result == old(result) && script == old(script) && error == old(error)
    {
      var request := BeginGenerateImage(promptOverride);
      if request.Some? {
        var outcome := GenerateProductImage(reply);
        CompleteGenerateImage(outcome);
      }
    }
  }
}
