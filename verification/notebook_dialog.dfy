/**
 The "create notebook" dialog: the form record and its updates, the colour and
 icon pickers, when the submit button is enabled, the reset after a
 successful submit, and which icon the header shows.
 */
module NotebookDialog {
  import opened Text

  datatype NotebookForm = NotebookForm(title: string, description: string, color: string, gradient: string, icon: string)

  const InitialForm: NotebookForm :=
    NotebookForm("", "", "bg-blue-500", "from-blue-500 to-blue-600", "BookOpen")

  // ---------------------------------------------------------------------------
  // Options

  datatype ColorOption = ColorOption(name: string, value: string, gradient: string)

  const ColorOptions: seq<ColorOption> := [
    ColorOption("Ocean Blue", "bg-blue-500", "from-blue-500 to-blue-600"),
    ColorOption("Forest Green", "bg-green-500", "from-green-500 to-green-600"),
    ColorOption("Royal Purple", "bg-purple-500", "from-purple-500 to-purple-600"),
    ColorOption("Sunset Orange", "bg-orange-500", "from-orange-500 to-orange-600"),
    ColorOption("Rose Pink", "bg-rose-500", "from-rose-500 to-rose-600"),
    ColorOption("Slate Gray", "bg-slate-500", "from-slate-500 to-slate-600"),
    ColorOption("Emerald", "bg-emerald-500", "from-emerald-500 to-emerald-600"),
    ColorOption("Amber", "bg-amber-500", "from-amber-500 to-amber-600")
  ]

  /** The icon components the picker offers. */
  datatype Icon = BookOpen | Brain | Code | Calculator | Globe | Lightbulb | Target | Sparkles

  datatype IconOption = IconOption(name: string, icon: Icon)

  const IconOptions: seq<IconOption> := [
    IconOption("Book", BookOpen),
    IconOption("Brain", Brain),
    IconOption("Code", Code),
    IconOption("Calculator", Calculator),
    IconOption("Globe", Globe),
    IconOption("Lightbulb", Lightbulb),
    IconOption("Target", Target),
    IconOption("Sparkles", Sparkles)
  ]

  // ---------------------------------------------------------------------------
  // Form updates

  datatype TextField = Title | Description

  /** `handleInputChange(field)`: only the edited field changes. */
  function SetText(f: NotebookForm, field: TextField, value: string): (r: NotebookForm)
    ensures field == Title ==> r.title == value && r.description == f.description
    ensures field == Description ==> r.description == value && r.title == f.title
    ensures r.color == f.color && r.gradient == f.gradient && r.icon == f.icon
  {
    match field
    case Title => f.(title := value)
    case Description => f.(description := value)
  }

  /** `handleColorSelect`: colour and gradient come from the same option; the rest is untouched. */
  function SelectColor(f: NotebookForm, c: ColorOption): (r: NotebookForm)
    ensures r.color == c.value && r.gradient == c.gradient
    ensures r.title == f.title && r.description == f.description && r.icon == f.icon
  {
    f.(color := c.value, gradient := c.gradient)
  }

  /** `handleIconSelect`: only the icon name changes. */
  function SelectIcon(f: NotebookForm, name: string): (r: NotebookForm)
    ensures r.icon == name
    ensures r.title == f.title && r.description == f.description && r.color == f.color && r.gradient == f.gradient
  {
    f.(icon := name)
  }

  /** A colour swatch is highlighted when its value is the form's colour. */
  predicate ColorSelected(f: NotebookForm, c: ColorOption)
  {
    f.color == c.value
  }

  /** An icon button is highlighted when its name is the form's icon name. */
  predicate IconSelected(f: NotebookForm, o: IconOption)
  {
    f.icon == o.name
  }

  /** Picking a swatch highlights exactly that swatch, since the eight colour values are distinct. */
  lemma SelectColorHighlightsOne(f: NotebookForm, k: nat)
    requires k < |ColorOptions|
    ensures forall j :: 0 <= j < |ColorOptions| ==> (ColorSelected(SelectColor(f, ColorOptions[k]), ColorOptions[j]) <==> j == k)
  {
  }

  // ---------------------------------------------------------------------------
  // Header icon

  /** `iconOptions.find(opt => opt.name === icon)?.icon || BookOpen`. */
  function FindIcon(options: seq<IconOption>, name: string): (r: Option<Icon>)
    ensures r.None? <==> forall j :: 0 <= j < |options| ==> options[j].name != name
    ensures r.Some? ==> exists j :: 0 <= j < |options| && options[j].name == name && options[j].icon == r.value
                          && forall i :: 0 <= i < j ==> options[i].name != name
  {
    if options == [] then None
    else if options[0].name == name then Some(options[0].icon)
    else
      var rest := FindIcon(options[1..], name);
      assert forall j :: 0 < j < |options| ==> options[1..][j - 1] == options[j];
      rest
  }

  function SelectedIcon(f: NotebookForm): (r: Icon)
    ensures (forall j :: 0 <= j < |IconOptions| ==> IconOptions[j].name != f.icon) ==> r == BookOpen
  {
    match FindIcon(IconOptions, f.icon)
    case Some(icon) => icon
    case None => BookOpen
  }

  /** Icon option names differ in their first letter or their length, so no two are equal and none is "BookOpen". */
  lemma IconNamesDistinct()
    ensures forall i, j :: 0 <= i < |IconOptions| && 0 <= j < |IconOptions| && i != j ==>
              IconOptions[i].name != IconOptions[j].name
    ensures forall j :: 0 <= j < |IconOptions| ==> IconOptions[j].name != "BookOpen"
  {
    var firsts := ['B', 'B', 'C', 'C', 'G', 'L', 'T', 'S'];
    var lengths := [4, 5, 4, 10, 5, 9, 6, 8];
    forall j | 0 <= j < |IconOptions|
      ensures |IconOptions[j].name| == lengths[j] && IconOptions[j].name[0] == firsts[j]
    {
    }
    assert |"BookOpen"| == 8 && "BookOpen"[0] == 'B';
  }

  /** The default icon name "BookOpen" is no option's name: the header falls back and no icon button is highlighted. */
  lemma InitialIconFallsBack()
    ensures SelectedIcon(InitialForm) == BookOpen
    ensures forall j :: 0 <= j < |IconOptions| ==> !IconSelected(InitialForm, IconOptions[j])
  {
    IconNamesDistinct();
  }

  /** The default colour, by contrast, is the first swatch's, which is highlighted. */
  lemma InitialColorIsFirstSwatch()
    ensures ColorSelected(InitialForm, ColorOptions[0])
    ensures InitialForm.gradient == ColorOptions[0].gradient
  {
  }

  /** Clicking an icon button highlights that button alone and shows its icon in the header. */
  lemma SelectIconShowsIt(f: NotebookForm, k: nat)
    requires k < |IconOptions|
    ensures SelectedIcon(SelectIcon(f, IconOptions[k].name)) == IconOptions[k].icon
    ensures forall j :: 0 <= j < |IconOptions| ==> (IconSelected(SelectIcon(f, IconOptions[k].name), IconOptions[j]) <==> j == k)
  {
    IconNamesDistinct();
    var g := SelectIcon(f, IconOptions[k].name);
    var r := FindIcon(IconOptions, g.icon);
    assert r.Some?;
  }

  // ---------------------------------------------------------------------------
  // Submission

  /**
   `disabled={!formData.title.trim() || isLoading}`, negated: the button is
   enabled exactly when the title has a non-whitespace character and nothing
   is pending.
   */
  function SubmitEnabled(f: NotebookForm, loading: bool): (enabled: bool)
    ensures enabled <==> !AllSpace(f.title) && !loading
  {
    TrimEmptyIff(f.title);
    Trim(f.title) != [] && !loading
  }

  datatype DialogState = DialogState(form: NotebookForm, open: bool, loading: bool)

  datatype Toast = Toast(title: string, description: string, destructive: bool)

  /**
   Submitting marks the dialog as pending and leaves the form alone. The
   handler's closure holds the form as it was at this moment, so the title it
   later names is this one.
   */
  function BeginSubmit(st: DialogState): (r: (DialogState, string))
    ensures r.0.loading && r.0.form == st.form && r.0.open == st.open
    ensures r.1 == st.form.title
  {
    (st.(loading := true), st.form.title)
  }

  /**
   Settling the submit one second later. The fields stay editable while it is
   pending, so `st` is the dialog as it is now and `submittedTitle` the title
   captured when the submit began. On success the form returns to its defaults,
   the dialog closes and the toast names the captured title; on failure the
   form and the dialog stay as they are now. Loading ends either way.
   */
  function FinishSubmit(st: DialogState, submittedTitle: string, succeeded: bool): (r: (DialogState, Toast))
    ensures !r.0.loading
    ensures succeeded ==> r.0.form == InitialForm && !r.0.open && !r.1.destructive
    ensures !succeeded ==> r.0.form == st.form && r.0.open == st.open && r.1.destructive
    ensures succeeded ==> r.1.description == "\"" + submittedTitle + "\" notebook created successfully."
  {
    if succeeded then
      (DialogState(InitialForm, false, false),
       Toast("Success!", "\"" + submittedTitle + "\" notebook created successfully.", false))
    else
      (st.(loading := false), Toast("Error", "Failed to create notebook. Please try again.", true))
  }

  /**
   Editing the title while the submit is pending does not change what the
   success toast names, and the edit is thrown away by the reset; a failed
   submit keeps it.
   */
  lemma EditDuringSubmit(st: DialogState, typed: string, succeeded: bool)
    ensures var (pending, captured) := BeginSubmit(st);
      var edited := pending.(form := SetText(pending.form, Title, typed));
      var (after, toast) := FinishSubmit(edited, captured, succeeded);
      && (succeeded ==> toast.description == "\"" + st.form.title + "\" notebook created successfully." && after.form == InitialForm)
      && (!succeeded ==> after.form.title == typed && after.form.description == st.form.description)
  {
  }

  /** After a successful submit the next one starts from a blank form, which cannot be submitted until a title is typed. */
  lemma SuccessResetsForm(st: DialogState)
    ensures var (pending, captured) := BeginSubmit(st);
      var after := FinishSubmit(pending, captured, true).0;
      after == DialogState(InitialForm, false, false) && !SubmitEnabled(after.form, after.loading)
  {
  }
}
