/**
 * The control panel: which inputs and buttons are disabled, whether the edit
 * section exists, and which label each button shows, all as functions of the
 * panel's props.
 */
module ControlPanel {
  import opened Wrappers
  import opened JsString

  /** The props the panel's markup reads; the callbacks are left out. */
  datatype PanelProps = PanelProps(medicalText: string, editText: string, isLoading: bool, hasImage: bool)

  /** The edit section: its input, its button and the button's label. */
  datatype EditSection = EditSection(inputDisabled: bool, buttonDisabled: bool, buttonLabel: string)

  /** What the panel renders, as far as its logic goes. */
  datatype PanelView = PanelView(
    topicInputDisabled: bool, generateDisabled: bool, generateLabel: string, edit: Option<EditSection>)

  /** The Generate button's label. */
  function GenerateLabel(p: PanelProps): (caption: string)
    ensures caption == "Generating..." <==> p.isLoading && !p.hasImage
    ensures caption == "Regenerate Scene" <==> p.hasImage
    ensures caption == "Generate Scene" <==> !p.isLoading && !p.hasImage
  {
    if p.isLoading && !p.hasImage then "Generating..." else if p.hasImage then "Regenerate Scene" else "Generate Scene"
  }

  /** The Edit button's label. */
  function EditLabel(p: PanelProps): (caption: string)
    ensures caption == "Editing..." <==> p.isLoading
    ensures caption == "Apply Edit" <==> !p.isLoading
  {
    if p.isLoading then "Editing..." else "Apply Edit"
  }

  /**
   * The panel: both text inputs are disabled exactly while loading, whatever
   * they hold; each button is disabled exactly while loading or while its text
   * is whitespace-only; the edit section exists exactly when there is an image.
   */
  function Render(p: PanelProps): (v: PanelView)
    ensures v.topicInputDisabled <==> p.isLoading
    ensures v.generateDisabled <==> p.isLoading || IsBlank(p.medicalText)
    ensures v.generateLabel == GenerateLabel(p)
    ensures v.edit.Some? <==> p.hasImage
    ensures v.edit.Some? ==> (v.edit.value.inputDisabled <==> p.isLoading)
    ensures v.edit.Some? ==> (v.edit.value.buttonDisabled <==> p.isLoading || IsBlank(p.editText))
    ensures v.edit.Some? ==> v.edit.value.buttonLabel == EditLabel(p)
  {
    TrimEmptyIffBlank(p.medicalText);
    TrimEmptyIffBlank(p.editText);
    PanelView(
      p.isLoading,
      p.isLoading || Trim(p.medicalText) == [],
      GenerateLabel(p),
      if p.hasImage then
        Some(EditSection(p.isLoading, p.isLoading || Trim(p.editText) == [], EditLabel(p)))
      else None)
  }

  /** Generate can be clicked exactly when not loading and the topic has a non-whitespace character. */
  predicate CanGenerate(p: PanelProps) {
    !Render(p).generateDisabled
  }

  /** Edit can be clicked exactly when its section exists and its button is enabled. */
  predicate CanEdit(p: PanelProps) {
    var v := Render(p);
    v.edit.Some? && !v.edit.value.buttonDisabled
  }

  /** Whitespace-only text never enables a button, and nothing is enabled while loading. */
  lemma BlankTextNeverEnables(p: PanelProps)
    ensures CanGenerate(p) <==> !p.isLoading && exists i :: 0 <= i < |p.medicalText| && !IsWs(p.medicalText[i])
    ensures CanEdit(p) <==> p.hasImage && !p.isLoading && exists i :: 0 <= i < |p.editText| && !IsWs(p.editText[i])
  {
  }

  /** Edit cannot be triggered without an image, whatever the text and the loading flag. */
  lemma EditNeedsImage(p: PanelProps)
    ensures CanEdit(p) ==> p.hasImage
    ensures !p.hasImage ==> Render(p).edit == None
  {
  }

  /** While loading with an image, the Generate button still reads "Regenerate Scene". */
  lemma LoadingWithImageLabel(medicalText: string, editText: string)
    ensures GenerateLabel(PanelProps(medicalText, editText, true, true)) == "Regenerate Scene"
    ensures Render(PanelProps(medicalText, editText, true, true)).generateDisabled
  {
  }
}
