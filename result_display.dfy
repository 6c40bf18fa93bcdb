/** The decisions of components/ResultDisplay.tsx: which of its four
    views it shows, what the preview tab holds, the panel toggle and the
    routing of the "generate" click. The panel extractor itself is in
    PanelExtract. */
module ResultDisplay {
  import opened Common
  import opened Types
  import opened PanelExtract

  /** The nine panels of the grid, as numbered on the selector buttons. */
  type PanelNumber = n: nat | 1 <= n <= 9 witness 1

  datatype Tab = PromptTab | ScriptTab | PreviewTab

  /** The four top-level views, in the order the component tries them. */
  datatype View = ErrorView(message: string) | LoadingView | EmptyView | TabsView(prompt: string)

  /** The error view beats the loading view, which beats the empty view;
      the tabs appear only with a non-empty result. */
  function ViewFor(error: Option<string>, isLoading: bool, result: Option<string>): (v: View)
    ensures v.ErrorView? <==> Truthy(error)
    ensures v.ErrorView? ==> v.message == error.value
    ensures v.LoadingView? <==> !Truthy(error) && isLoading
    ensures v.EmptyView? <==> !Truthy(error) && !isLoading && !Truthy(result)
    ensures v.TabsView? <==> !Truthy(error) && !isLoading && Truthy(result)
    ensures v.TabsView? ==> v.prompt == result.value
  {
    if Truthy(error) then ErrorView(error.value)
    else if isLoading then LoadingView
    else if !Truthy(result) then EmptyView
    else TabsView(result.value)
  }

  /** What the preview tab shows: the invitation to generate (only while
      nothing was generated), the spinner, the failure notice with its retry
      button, and the picture. */
  datatype Preview = Preview(invite: bool, spinner: bool, failure: bool, image: Option<string>)

  function PreviewFor(status: GenerationStatus, generatedImageUrl: Option<string>): Preview
  {
    Preview(
      status == GenerationStatus.IDLE && !Truthy(generatedImageUrl),
      status == GenerationStatus.GENERATING,
      status == GenerationStatus.ERROR,
      if Truthy(generatedImageUrl) then generatedImageUrl else None)
  }

  /** `handlePanelSelection`: a panel is selected afterwards exactly when it
      was not selected before, and no other panel ever is. */
  function Toggle(selected: Option<PanelNumber>, n: PanelNumber): (r: Option<PanelNumber>)
    ensures r == Some(n) <==> selected != Some(n)
    ensures r.None? <==> selected == Some(n)
  {
    if selected == Some(n) then None else Some(n)
  }

  /** Clicking the same panel twice from a state where it is not selected
      leaves nothing selected; from a state where it is, it comes back. */
  lemma ToggleTwice(selected: Option<PanelNumber>, n: PanelNumber)
    ensures selected != Some(n) ==> Toggle(Toggle(selected, n), n).None?
    ensures selected == Some(n) ==> Toggle(Toggle(selected, n), n) == selected
  {
  }

  /** The fixed text in front of a single panel's description. */
  const SINGLE_SHOT_PREFIX: string := "Based on the reference image, generate a high quality photography shot. "

  /** The callback `onGenerateImage` issues: none, or a call with or without
      an override prompt. */
  datatype ImageCall = NoCall | Generate(promptOverride: Option<string>)

  /** The call `handleGenerateClick` makes. Without a selection the whole
      grid is asked for; with one, the panel's text behind the fixed prefix,
      and no call at all when that panel's text cannot be extracted. */
  function ClickRequest(result: Option<string>, selected: Option<PanelNumber>): (c: ImageCall)
    ensures selected.None? ==> c == Generate(None)
    ensures selected.Some? && ExtractPanelText(result, selected.value).None? ==> c == NoCall
    ensures selected.Some? && ExtractPanelText(result, selected.value).Some? ==>
      c == Generate(Some(SINGLE_SHOT_PREFIX + ExtractPanelText(result, selected.value).value))
  {
    match selected
    case None => Generate(None)
    case Some(n) =>
      var panelText := ExtractPanelText(result, n);
      if Truthy(panelText) then Generate(Some(SINGLE_SHOT_PREFIX + panelText.value)) else NoCall
  }

  /** An override the click passes on is never empty, so the controller
      uses it instead of the full result; and it ends with the panel's
      description as the extractor found it. */
  lemma ClickOverrideIsUsed(result: Option<string>, selected: Option<PanelNumber>)
    ensures var c := ClickRequest(result, selected);
      c.Generate? && c.promptOverride.Some? ==>
        && Truthy(c.promptOverride)
        && selected.Some?
        && c.promptOverride.value[|SINGLE_SHOT_PREFIX|..] == ExtractPanelText(result, selected.value).value
  {
    var c := ClickRequest(result, selected);
    if c.Generate? && c.promptOverride.Some? {
      var t := ExtractPanelText(result, selected.value).value;
      assert c.promptOverride.value == SINGLE_SHOT_PREFIX + t;
      assert (SINGLE_SHOT_PREFIX + t)[|SINGLE_SHOT_PREFIX|..] == t;
    }
  }

  /** The component's own state: the selected panel and the open tab. */
  class PanelPicker {
    var selectedPanel: Option<PanelNumber>
    var activeTab: Tab

    constructor()
      ensures selectedPanel.None? && activeTab == PromptTab
    {
      selectedPanel := None;
      activeTab := PromptTab;
    }

    /** A click on one of the nine selector buttons. */
    method SelectPanel(n: PanelNumber)
      modifies this
      ensures selectedPanel == Toggle(old(selectedPanel), n)
      ensures activeTab == old(activeTab)
    {
      if selectedPanel == Some(n) {
        selectedPanel := None;
      } else {
        selectedPanel := Some(n);
      }
    }

    /** The "Reset Selection" button. */
    method ResetSelection()
      modifies this
      ensures selectedPanel.None? && activeTab == old(activeTab)
    {
      selectedPanel := None;
    }

    /** `handleTabChange`. */
    method ChangeTab(tab: Tab)
      modifies this
      ensures activeTab == tab && selectedPanel == old(selectedPanel)
    {
      activeTab := tab;
    }

    /** `handleGenerateClick`: always opens the preview tab, keeps the
      selection, and returns the call it makes. */
    method GenerateClick(result: Option<string>) returns (call: ImageCall)
      modifies this
      ensures activeTab == PreviewTab && selectedPanel == old(selectedPanel)
      ensures call == ClickRequest(result, selectedPanel)
    {
      ChangeTab(PreviewTab);
      call := ClickRequest(result, selectedPanel);
    }
  }
}
