/** The decisions of the form field component: the field identifier, the
    accessibility wiring (`htmlFor`, `aria-invalid`, `aria-describedby`) and
    which of the hint, the error message, the success icon and the required
    asterisk are rendered. Styling, animation and React refs are not
    modelled. Optional boolean properties are `bool` with an absent value
    read as `false`, as JavaScript truthiness does. */
module FormField {
  import opened Optional
  import opened FieldSlug

  datatype InputType = Text | Email | Tel | Password | Url

  /** A select option: a bare string, or a value with its own caption. */
  datatype Choice = Plain(text: string) | Captioned(value: string, caption: string)

  datatype Kind =
    | InputKind(inputType: Option<InputType>)
    | TextareaKind(rows: Option<int>)
    | SelectKind(options: seq<Choice>, placeholder: Option<string>)

  /** The component's properties; `id` is the caller's own element id. */
  datatype Props = Props(
    labelText: string,
    error: Option<string>,
    required: bool,
    hint: Option<string>,
    success: bool,
    id: Option<string>,
    kind: Kind)

  /** The rendered form control. */
  datatype Control =
    | InputControl(inputType: InputType)
    | TextareaControl(rows: int)
    | SelectControl(placeholder: Option<string>, options: seq<(string, string)>)

  /** A rendered paragraph: its element id and its text. */
  datatype Message = Message(id: string, text: string)

  /** What the component renders, reduced to the decisions it makes. */
  datatype View = View(
    labelFor: string,
    asterisk: bool,
    control: Control,
    controlId: Option<string>,
    ariaInvalid: bool,
    ariaDescribedBy: string,
    errorClass: bool,
    successIcon: bool,
    hint: Option<Message>,
    error: Option<Message>)

  /** JavaScript truthiness of an optional string. */
  predicate Truthy(s: Option<string>)
  {
    s.Some? && s.value != ""
  }

  predicate HasError(p: Props)
  {
    Truthy(p.error)
  }

  function Id(p: Props): string
  {
    FieldId(p.id, p.labelText)
  }

  /** The `aria-describedby` suffix: the error when there is one, else the
      hint when there is one, else the description. */
  function DescribedSuffix(p: Props): (r: string)
    ensures r == "error" <==> HasError(p)
    ensures r == "hint" <==> !HasError(p) && Truthy(p.hint)
    ensures r == "description" <==> !HasError(p) && !Truthy(p.hint)
  {
    if HasError(p) then "error" else if Truthy(p.hint) then "hint" else "description"
  }

  /** The same `aria-describedby` value is computed for all three kinds of
      control. */
  function DescribedBy(p: Props): string
  {
    Id(p) + "-" + DescribedSuffix(p)
  }

  function RenderOption(c: Choice): (string, string)
  {
    match c
    case Plain(t) => (t, t)
    case Captioned(v, t) => (v, t)
  }

  function RenderControl(k: Kind): Control
  {
    match k
    case InputKind(t) => InputControl(t.GetOr(Text))
    case TextareaKind(rows) => TextareaControl(rows.GetOr(4))
    case SelectKind(options, placeholder) =>
      SelectControl(if Truthy(placeholder) then placeholder else None,
                    seq(|options|, i requires 0 <= i < |options| => RenderOption(options[i])))
  }

  /** The rendering, with the control carrying the field identifier (see
      `RenderAsWritten` for the component as written). */
  function Render(p: Props): (v: View)
    ensures v.controlId == Some(v.labelFor)
    ensures v.ariaInvalid == v.errorClass == v.error.Some?
    ensures !(v.hint.Some? && v.error.Some?)
    ensures v.successIcon ==> v.error.None?
  {
    var id := Id(p);
    var err := HasError(p);
    View(
      labelFor := id,
      asterisk := p.required,
      control := RenderControl(p.kind),
      controlId := Some(id),
      ariaInvalid := err,
      ariaDescribedBy := DescribedBy(p),
      errorClass := err,
      successIcon := p.success && !err,
      hint := if Truthy(p.hint) && !err then Some(Message(id + "-hint", p.hint.value)) else None,
      error := if err then Some(Message(id + "-error", p.error.value)) else None)
  }

  /** The error state: `aria-invalid` and the error style both hold
      exactly when there is a non-empty error; a textarea has 4 rows unless
      told otherwise, and every control gets the same `aria-describedby`. */
  lemma ControlState(p: Props)
    ensures var v := Render(p);
      && v.ariaInvalid == HasError(p)
      && v.errorClass == HasError(p)
      && v.ariaDescribedBy == Id(p) + "-" + DescribedSuffix(p)
      && (p.kind == TextareaKind(None) ==> v.control == TextareaControl(4))
      && (p.kind.TextareaKind? && p.kind.rows.Some? ==> v.control == TextareaControl(p.kind.rows.value))
  {
  }

  /** The label's asterisk appears exactly for required fields, and the
      success icon exactly for successful fields without an error: an
      error always suppresses it. */
  lemma DecorationsShown(p: Props)
    ensures var v := Render(p);
      && (v.asterisk <==> p.required)
      && (v.successIcon <==> p.success && !HasError(p))
      && (HasError(p) ==> !v.successIcon)
  {
  }

  /** The error block is rendered exactly when there is an error, and the
      hint exactly when there is one and no error; each shows its text. */
  lemma MessagesShown(p: Props)
    ensures var v := Render(p);
      && (v.error.Some? <==> HasError(p))
      && (v.error.Some? ==> v.error.value.text == p.error.value)
      && (v.hint.Some? <==> Truthy(p.hint) && !HasError(p))
      && (v.hint.Some? ==> v.hint.value.text == p.hint.value)
      && !(v.error.Some? && v.hint.Some?)
  {
  }

  /** `aria-describedby` names the element that is actually rendered: the
      error message when it is shown, else the hint when it is shown; only
      when neither is shown does it fall back to the `-description` id,
      which this component never renders. It never names the control
      itself. */
  lemma DescribedByNamesRenderedMessage(p: Props)
    ensures var v := Render(p);
      && (v.error.Some? ==> v.ariaDescribedBy == v.error.value.id)
      && (v.error.None? && v.hint.Some? ==> v.ariaDescribedBy == v.hint.value.id)
      && (v.error.None? && v.hint.None? ==> v.ariaDescribedBy == v.labelFor + "-description")
      && (DescribedSuffix(p) != "description" <==> v.error.Some? || v.hint.Some?)
      && v.ariaDescribedBy != v.labelFor
  {
    var v := Render(p);
    assert |v.ariaDescribedBy| > |v.labelFor|;
  }

  /** The label points at the control: both carry the field identifier. */
  lemma LabelTargetsControl(p: Props)
    ensures Render(p).controlId == Some(Render(p).labelFor)
    ensures Truthy(p.id) ==> Render(p).labelFor == p.id.value
    ensures !Truthy(p.id) ==> Render(p).labelFor == Slug(p.labelText)
  {
  }

  // ---------------------------------------------------------------------
  // Finding: the control's id as written

  /** The component as written: the control receives an `id` only through
      the caller's own properties, so it has none when the caller gives
      none, although the label's `htmlFor` still names the slug. */
  function RenderAsWritten(p: Props): (v: View)
    ensures v.controlId == p.id
    ensures v.(controlId := Some(v.labelFor)) == Render(p)
  {
    Render(p).(controlId := p.id)
  }

  lemma FullNameSlug()
    ensures Slug("Full Name") == "full-name"
  {
    assert "Full Name" == "Full" + " " + "Name";
    assert AllWhitespace(" ");
    assert NoWhitespace("Full") && NoWhitespace("Name");
    SlugJoin("Full", " ", "Name");
    SlugOfWord("Full");
    SlugOfWord("Name");
    LowerFull();
    LowerName();
  }

  lemma LowerFull()
    ensures Lower("Full") == "full"
  {
    assert forall k :: 0 <= k < 4 ==> Lower("Full")[k] == LowerChar("Full"[k]);
  }

  lemma LowerName()
    ensures Lower("Name") == "name"
  {
    assert forall k :: 0 <= k < 4 ==> Lower("Name")[k] == LowerChar("Name"[k]);
  }

  /** A field labelled "Full Name" without an `id`: the label points at
      `full-name`, and no element carries that id. */
  lemma LabelDanglesAsWritten()
    ensures var v := RenderAsWritten(Props("Full Name", None, false, None, false, None, InputKind(None)));
      v.labelFor == "full-name" && v.controlId == None
  {
    FullNameSlug();
  }
}
