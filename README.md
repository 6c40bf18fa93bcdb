# AutoPrompt Studio — a verified model of its core

AutoPrompt Studio is a browser app. A user uploads a product photo and
asks a hosted generative model for two things: a "3x3 grid" photography
prompt with a voice-over script, and then a generated picture, either of
the whole grid or of one panel. This project models the logic around the
two remote calls and proves what that logic promises. The remote calls
themselves are parameters.

- **App** (`app.dfy`) is the page controller. It is a class with the
  page's state fields: the image, the two inputs, the analysis flow
  (`status`, `result`, `script`, `error`) and the image flow (`genStatus`,
  `generatedImageUrl`, `genError`). Each asynchronous handler is split in
  two. A `Begin…` method runs up to the awaited call and returns the
  request it would send. A `Complete…` method takes what the call
  produced, as a `Result`. `GeneratePrompt` and `GenerateImage` compose
  the two halves with the service's handling of the model's reply. The
  invariant `Valid` ties each status to the data beside it. Every method
  keeps it and states its whole new state. `Display` is the view the
  result panel shows as the page wires it; `IntendedDisplay` is the one
  the two independent flows call for (see "## Findings").
- **ResultDisplay** (`result_display.dfy`) is the output panel. It holds:
  - which of the four views it shows (error, then loading, then empty,
    then tabs);
  - what the preview tab holds;
  - the panel toggle and the routing of the "generate" click;
  - a small `PanelPicker` class for the component's `selectedPanel` and
    `activeTab` state.
- **PanelExtract** (`panel_extract.dfy`) is the panel extractor. The
  source uses the case-insensitive regular expression
  `Panel\s*N\s*:\s*([\s\S]*?)(?=(?:Panel\s*M\s*:|Lighting must|Technical Specifications|$))`
  with M = N + 1, and trims the capture. Here that is written out as a
  deterministic search: the leftmost marker, the greedy white space after
  it, and the earliest place where the lookahead succeeds. The lemmas
  prove three things. The answer is trimmed and non-empty. It never
  contains the next panel's marker or a closing phrase. A well-formed
  panel's description is given back exactly.
- **GeminiService** (`gemini_service.dfy`, `instruction_template.dfy`)
  covers the service's own logic:
  - the optional context clause and the language default;
  - the layout of the analysis instruction (where the separator, the
    language and the context sit);
  - the `response.text || …` fallback;
  - the scan of the image reply for the first part with inline data;
  - the rule that every failure reaches the caller as one generic message.
- **ImageUploader** (`image_uploader.dfy`) is the one computation of the
  uploader: `result.split(',')[1]` on a data URL.
- **Text** (`text.dfy`) holds the JavaScript string built-ins the code
  relies on, each with its properties proved:
  - `trim`, with the ECMAScript white-space and line-terminator set;
  - `indexOf`;
  - `split` and `join` on a string separator;
  - ASCII case folding;
  - decimal numerals.
- **Common** (`common.dfy`) and **Types** (`types.ts`'s records and
  enumerations, in `types.dfy`) hold the shared types. `None` stands for
  `null` and `undefined`. `Truthy` is JavaScript's truthiness of an
  optional string, and `OrElse` is its `||`.

Where the design and the code differ, the model follows the code:
- An answer that begins with the separator completes the analysis with an
  empty prompt. The status says COMPLETED while the display stays on its
  empty view (`LeadingSeparatorGivesEmptyPrompt`).
- A reply without image data cannot be told apart from a transport
  failure. Both become the same generic message (`GenerateProductImage`).
- The script is the text up to the second separator, not all of the text
  after the first one (`ParseResponseSplits`).
- When a successful answer has no separator, the `script` field keeps
  whatever it held. It is `null` only because the analysis cleared it when
  it started (`CompleteGeneratePrompt`).
- Clicking the same panel twice leaves nothing selected only when that
  panel was not selected to begin with. From a state where it was
  selected, it comes back selected (`ToggleTwice`).
- Nothing checks that a finishing call is still the current one, so a late
  answer is written all the same. The `Complete…` methods have no
  precondition on the status.

## Model

| member | source | states |
|---|---|---|
| App.Controller.constructor | App.tsx:9-22 | No image, empty description, English, both flows IDLE with every result, script, URL and error absent; the invariant holds |
| App.Controller.SelectImage | App.tsx:24-34 | Choosing or clearing an image stores it. Whatever the prior state, it clears result, script, error, URL and image error and sets both statuses to IDLE. Description and language are unchanged |
| App.Controller.SetProductDescription | App.tsx:171 | Only the description changes |
| App.Controller.SetLanguage | App.tsx:145 | Only the language changes |
| App.Controller.BeginGeneratePrompt | App.tsx:36-43 | Without an image nothing changes and no request is made. Otherwise the status is ANALYZING; error, result and script are cleared; the request carries the image's base64 and MIME type and the two inputs. The image flow is untouched |
| App.Controller.CompleteGeneratePrompt | App.tsx:44-67 | On an answer: COMPLETED, with the result and script of `ParseResponse`; the script is kept when the separator is absent. On a failure: ERROR, with the message, or the fallback when it is empty; result and script are as they were. Nothing else changes |
| App.Controller.GeneratePrompt | App.tsx:36-67 | The whole analysis. No image: no change. Call failure: ERROR with the generic analysis message, no result or script. Reply: COMPLETED, no error, result and script from splitting the reply text. The image, the two inputs and the image flow are unchanged |
| App.Controller.BeginGenerateImage | App.tsx:70-79 | The prompt is the override when it is non-empty, the result otherwise. Without an image or a prompt, nothing in the image flow changes. Otherwise GENERATING, error and old picture cleared, and the request carries that prompt. The analysis is untouched |
| App.Controller.CompleteGenerateImage | App.tsx:81-89 | Success: COMPLETED with the URL. Failure: ERROR with the message or the fallback. The analysis is untouched |
| App.Controller.GenerateImage | App.tsx:70-89 | The whole image flow. Without an image or a prompt the image flow is unchanged. Otherwise either ERROR with the generic image message and no picture, or COMPLETED with a PNG data URI. A call failure always gives ERROR. On a reply: ERROR exactly when no part of the first candidate has data, and on COMPLETED the URL is the PNG data URI of the first part with data. The image, the inputs and the analysis are unchanged |
| App.Controller.Display | App.tsx:226-230 | As wired: the error view exactly when either flow's error is truthy, with the analysis message first. The loading view exactly while analyzing with neither error. The tabs exactly when neither error is set, no analysis runs and the result is non-empty, and they show the result |
| App.Controller.IntendedDisplay | App.tsx:226-230 | As intended: the error view exactly when the analysis error is truthy. The loading view exactly while analyzing without it. The tabs exactly when there is none, no analysis runs and the result is non-empty |
| App.ParseResponseSplits | App.tsx:52-61 | No separator: the whole answer, untrimmed, and no script. Otherwise: the trimmed text before the first separator, and the trimmed text between the first separator and the second one or the end |
| App.ParseFormatted | App.tsx:52-61 | An answer laid out as the instruction asks (prompt, separator on its own line, script) is split back into the trimmed prompt and the trimmed script |
| App.LeadingSeparatorGivesEmptyPrompt | App.tsx:54-63 | An answer starting with the separator completes with an empty prompt and a script, and the display then shows its empty view |
| App.DisplayedErrorAsWritten | App.tsx:230 | `error \|\| genError`: truthy when either error is; the analysis error wins |
| App.Controller.ImageFailureHidesTabsAsWritten | App.tsx:230 | As written, in every consistent state with an image failure the display is the error view, never the tabs |
| App.Controller.ImageFailureHidesAnalysisAsWritten | App.tsx:226-230 | As written, an analysis running after an image failure shows that failure instead of the spinner; the intended display shows the spinner |
| App.ImageFailureExample | App.tsx:230 | A completed analysis followed by an image failure: the error view as written, the tabs as intended |
| App.DisplayedError | App.tsx:230 | The intended display error is truthy exactly when the analysis error is |
| App.Controller.ImageFailureShownInPreview | App.tsx:230 | With the intended precedence, an image failure after a completed analysis leaves the prompt tabs on screen, and the preview tab shows the failure notice |
| App.Controller.PreviewIsCoherent | components/ResultDisplay.tsx:343-386 | In every consistent state the preview tab shows the invitation exactly while the image flow is IDLE, and then no picture. The spinner shows alone, never with a picture or the failure notice. A picture shows only after generation came back, and after a success it is the generated one |
| ResultDisplay.ViewFor | components/ResultDisplay.tsx:103-138 | Error view exactly when the error is truthy, showing that message. Loading exactly when there is no error and loading. Empty exactly when neither and the result is empty or missing. Tabs exactly otherwise, with the result |
| ResultDisplay.Toggle | components/ResultDisplay.tsx:58-65 | The panel is selected afterwards exactly when it was not selected before; otherwise nothing is |
| ResultDisplay.ToggleTwice | components/ResultDisplay.tsx:58-65 | Twice from a state where the panel is not selected: nothing selected. Twice from one where it is: selected again |
| ResultDisplay.ClickRequest | components/ResultDisplay.tsx:80-89 | No selection: a call without override. A selection whose text does not extract: no call. Otherwise: a call with the fixed single-shot prefix followed by the panel's text |
| ResultDisplay.ClickOverrideIsUsed | components/ResultDisplay.tsx:80-85 | An override the click passes on is never empty, so the controller uses it over the result. Past the prefix it is exactly the extracted text |
| ResultDisplay.PanelPicker.constructor | components/ResultDisplay.tsx:26-27 | No panel selected, prompt tab open |
| ResultDisplay.PanelPicker.SelectPanel | components/ResultDisplay.tsx:58-65 | The selection becomes `Toggle` of the old one; the tab is kept |
| ResultDisplay.PanelPicker.ResetSelection | components/ResultDisplay.tsx:222 | The selection is cleared; the tab is kept |
| ResultDisplay.PanelPicker.ChangeTab | components/ResultDisplay.tsx:92-94 | The tab becomes the one asked for; the selection is kept |
| ResultDisplay.PanelPicker.GenerateClick | components/ResultDisplay.tsx:77-90 | The preview tab is opened, the selection kept, and the call made is `ClickRequest` of the result and the selection |
| PanelExtract.MarkerEnd | components/ResultDisplay.tsx:53 | A marker match ends in bounds, just past a colon |
| PanelExtract.FindMarker | components/ResultDisplay.tsx:53 | The leftmost index at or after the start where the panel's marker matches; none before it, and none at all when absent |
| PanelExtract.StopFrom | components/ResultDisplay.tsx:53 | The lazy capture ends at the first index where the next marker, a closing phrase or the end of the text is, and no stop lies before it |
| PanelExtract.Extract | components/ResultDisplay.tsx:51-56 | Nothing for an empty or missing text. Any text it gives is non-empty and trimmed |
| PanelExtract.ExtractPanelText | components/ResultDisplay.tsx:51-56 | The same, with the words `Panel`, `Lighting must` and `Technical Specifications` |
| PanelExtract.NoMarkerNoText | components/ResultDisplay.tsx:53-55 | A text without the panel's marker gives nothing, without failing |
| PanelExtract.ExtractedSpan | components/ResultDisplay.tsx:53-55 | The answer is the trimmed text between the white space after the leftmost marker and the first stop or the end |
| PanelExtract.ExtractedTextHasNoStop | components/ResultDisplay.tsx:53-55 | The extracted text contains no next-panel marker and no closing phrase |
| PanelExtract.ExtractWellFormed | components/ResultDisplay.tsx:53-55 | For a text where `Panel n: ` follows any part without a marker of panel n (the summary, the earlier panels), and a description that starts visibly and runs to a stop or the end follows it, the answer is exactly that description, trimmed |
| GeminiService.ContextInstruction | services/geminiService.ts:15-17 | Empty exactly when the context is empty or missing. Otherwise the fixed prefix, the context verbatim, and the fixed suffix |
| GeminiService.ContextRoundTrip | services/geminiService.ts:15-17 | The context can be read back out of its clause, and no context leaves no clause |
| GeminiService.LanguageOrDefault | services/geminiService.ts:7 | A missing language becomes English; a given one is kept |
| GeminiService.FillLayout | services/geminiService.ts:19-66 | An instruction filled from a template has the separator after the format block, the language right after the first script directive and the context verbatim in its clause. Without a context, opening and format are adjacent |
| GeminiService.InstructionLayout | services/geminiService.ts:19-66 | The analysis instruction has that layout |
| GeminiService.ReplyText | services/geminiService.ts:85 | The reply text when it is non-empty, the placeholder otherwise; never empty |
| GeminiService.GenerateAutoPrompt | services/geminiService.ts:85-90 | A reply gives its text (never empty). A failure gives only the generic analysis message |
| GeminiService.ResponseParts | services/geminiService.ts:126 | When the candidates, the first candidate's content and its parts are all present, exactly those parts. Otherwise no parts |
| GeminiService.FindImageDataUri | services/geminiService.ts:126-130 | None exactly when no part has data. Otherwise the PNG data URI of the first part with data, all earlier parts having none |
| GeminiService.GenerateProductImage | services/geminiService.ts:125-137 | Every failure is the generic image message. A call failure always fails. On a reply it fails exactly when no part has data, and otherwise returns the first part's PNG data URI |
| ImageUploader.Base64Payload | components/ImageUploader.tsx:22 | Missing exactly when there is no comma. Otherwise the comma-free text after the first comma, up to the next one |
| ImageUploader.PayloadOfDataUrl | components/ImageUploader.tsx:19-22 | The data URL of a file gives back exactly its base64 payload |
| Common.OrElse | App.tsx:72 | JavaScript's `\|\|`: the first operand when it is truthy, else the second; truthy when either is |
| Common.MessageOr | App.tsx:65 | The message when it is non-empty, the fallback otherwise |
| Text.Trim | App.tsx:57 | The result has no white space at either end |
| Text.TrimCutsSpace | App.tsx:57 | Only white space is cut, at both ends |
| Text.TrimIdempotent | App.tsx:57 | Trimming twice is trimming once |
| Text.BeforeFirst | App.tsx:54 | A prefix that stops at the first separator and holds none |
| Text.JoinSplit | App.tsx:54 | Joining the pieces of a split with the separator gives back the text |
| Text.SplitPiecesAreFree | App.tsx:54 | No piece of a split holds the separator |
| Text.SplitHead | App.tsx:54-56 | More than one piece exactly when the separator occurs; the first two pieces are the text before it and the text after it up to the next one |
| Text.DecimalRoundTrip | components/ResultDisplay.tsx:53 | The numeral written into the marker reads back as the panel number |

## Left out

- The SDK calls, model ids, the API key read and the request shapes are not modelled. The model's replies are parameters (`TextReply`, `ImageReply`), and the begin methods return the arguments they would send.
- JSX markup, styling and icons are not modelled.
- Clipboard writes, the timed "copied" flags, `window.open` and the download link are browser services with no effect on the modelled state.
- The effect that switches to the preview tab once a picture URL arrives is left out. It runs on React's rendering schedule.
- Concurrency is left out. Races between a running call and a new image are not modelled; a late answer is simply written, as the code does.
- The `File` handle and `FileReader` are left out: the image is a record of its preview URL, base64 and MIME type. `Types.ImageFile` has no `file` field.
- Console logging is left out.
- Strings are sequences of Unicode scalar values, not UTF-16 code units, so white space and case folding are stated on characters.
- The selected-panel preview (`selectedPanelText` and its copy button) only displays `ExtractPanelText`, which is modelled.
- The disabled state of the buttons during analysis is a UI guard. The controller methods accept calls in every state, as the handlers do.
- ImageUploader.Base64Payload: `base64` is `undefined` when the data URL has no comma. The model returns `None` there, while `Types.ImageFile` keeps the base64 as a string.
- PanelExtract.Extract: its own contract says only that the answer is missing for an empty text and otherwise non-empty and trimmed. The search is pinned down by `ExtractedSpan`, `ExtractedTextHasNoStop` and `ExtractWellFormed`.

## Findings

| source | as written | input that shows it | evidently intended | confidence | as-written member | corrected member |
|---|---|---|---|---|---|---|
| App.tsx:230 | The result display receives `error \|\| genError`, so an image-generation failure replaces the whole display, prompt and tabs included, with the error view. The preview tab's failure notice and retry button (components/ResultDisplay.tsx:372-385) can never be shown. The image error also survives a new analysis (App.tsx:36-43 clears only `error`), so the spinner is hidden too | error `null`, genError `"Failed to generate image. Please try again."`, result `"Panel 1: a shot"`, not loading | The two flows report errors independently: an image failure shows in the preview tab and leaves the prompt on screen | not executed | App.DisplayedErrorAsWritten, App.Controller.Display, App.Controller.ImageFailureHidesTabsAsWritten, App.Controller.ImageFailureHidesAnalysisAsWritten, App.ImageFailureExample | App.DisplayedError, App.Controller.IntendedDisplay, App.Controller.ImageFailureShownInPreview |
