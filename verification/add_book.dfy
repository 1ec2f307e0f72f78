/** The "Upload a Book" page: the form's declared fields and constraints, and the submit
    button's label as the submission goes through. */
module AddBook {

  import opened Values
  import opened Http

  // ---------------------------------------------------------------------------
  // The form
  // ---------------------------------------------------------------------------

  /** The kind of control, with the bounds of a number input. */
  datatype Control = TextInput | NumberInput(min: int, max: int) | FileInput | TextArea

  /** A named form control; only named controls contribute to the submitted form data. */
  datatype FormField = FormField(name: string, control: Control, required: bool)

  const MinYear: int := 1900
  const MaxYear: int := 2099

  /** The form's controls, in document order. The rating stars are not controls. */
  const AddBookForm: seq<FormField> := [
    FormField("title", TextInput, true),
    FormField("author", TextInput, true),
    FormField("genre", TextInput, true),
    FormField("publishedYear", NumberInput(MinYear, MaxYear), true),
    FormField("image", FileInput, true),
    FormField("description", TextArea, true)
  ]

  /** The value a control holds: text, a number (None when left empty), or a chosen file. */
  datatype Input = Text(s: string) | Number(n: Option<int>) | File(fileName: Option<string>)

  /** The browser's constraint check for one control: a required control is filled in, and a
      number lies within its bounds. */
  predicate Conforms(f: FormField, v: Input) {
    match f.control
    case TextInput => v.Text? && (f.required ==> v.s != "")
    case TextArea => v.Text? && (f.required ==> v.s != "")
    case NumberInput(lo, hi) => v.Number? && (f.required ==> v.n.Some?) && (v.n.Some? ==> lo <= v.n.value <= hi)
    case FileInput => v.File? && (f.required ==> v.fileName.Some?)
  }

  /** Every control has a value and passes its check, so the browser fires the submit event. */
  predicate Submittable(form: seq<FormField>, values: map<string, Input>) {
    forall i :: 0 <= i < |form| ==> form[i].name in values && Conforms(form[i], values[form[i].name])
  }

  /** `new FormData(form)`: one entry per named control, in document order. */
  function FormDataOf(form: seq<FormField>, values: map<string, Input>): (d: seq<(string, Input)>)
    requires forall i :: 0 <= i < |form| ==> form[i].name in values
    ensures |d| == |form|
    ensures forall i :: 0 <= i < |form| ==> d[i] == (form[i].name, values[form[i].name])
  {
    seq(|form|, i requires 0 <= i < |form| => (form[i].name, values[form[i].name]))
  }

  /** The names of the form's controls. */
  function Names(form: seq<FormField>): (ns: seq<string>)
    ensures |ns| == |form|
    ensures forall i :: 0 <= i < |form| ==> ns[i] == form[i].name
  {
    seq(|form|, i requires 0 <= i < |form| => form[i].name)
  }

  /** The submitted fields are exactly title, author, genre, publishedYear, image and description,
      each required; there is no rating field. */
  lemma RequiredFields()
    ensures Names(AddBookForm) == ["title", "author", "genre", "publishedYear", "image", "description"]
    ensures forall i :: 0 <= i < |AddBookForm| ==> AddBookForm[i].required
    ensures "rating" !in Names(AddBookForm)
  {
    var ns := Names(AddBookForm);
    assert ns == ["title", "author", "genre", "publishedYear", "image", "description"];
    assert forall i :: 0 <= i < |ns| ==> ns[i] != "rating";
  }

  /** A submittable form carries a year from 1900 to 2099, and every other field filled in. */
  lemma {:induction false} SubmittedYearInRange(values: map<string, Input>)
    requires Submittable(AddBookForm, values)
    ensures "title" in values && "author" in values && "genre" in values
    ensures "publishedYear" in values && "image" in values && "description" in values
    ensures values["publishedYear"].Number? && values["publishedYear"].n.Some?
    ensures MinYear <= values["publishedYear"].n.value <= MaxYear
    ensures values["title"].Text? && values["title"].s != ""
    ensures values["author"].Text? && values["author"].s != ""
    ensures values["genre"].Text? && values["genre"].s != ""
    ensures values["image"].File? && values["image"].fileName.Some?
    ensures values["description"].Text? && values["description"].s != ""
  {
    RequiredFields();
    assert Conforms(AddBookForm[0], values[AddBookForm[0].name]);
    assert Conforms(AddBookForm[1], values[AddBookForm[1].name]);
    assert Conforms(AddBookForm[2], values[AddBookForm[2].name]);
    assert Conforms(AddBookForm[3], values[AddBookForm[3].name]);
    assert Conforms(AddBookForm[4], values[AddBookForm[4].name]);
    assert Conforms(AddBookForm[5], values[AddBookForm[5].name]);
  }

  /** Conversely, a year outside 1900-2099 keeps the form from being submitted. */
  lemma {:induction false} YearOutOfRangeBlocks(values: map<string, Input>, y: int)
    requires "publishedYear" in values && values["publishedYear"] == Number(Some(y))
    requires y < MinYear || MaxYear < y
    ensures !Submittable(AddBookForm, values)
  {
    assert !Conforms(AddBookForm[3], values[AddBookForm[3].name]);
  }

  // ---------------------------------------------------------------------------
  // The submit button's label
  // ---------------------------------------------------------------------------

  datatype Label = AddToLibrary | Adding | Added {
    function Text(): string {
      match this
      case AddToLibrary => "Add to Library"
      case Adding => "Adding to Library"
      case Added => "Added to Library"
    }
  }

  const InitialLabel: Label := AddToLibrary

  /** What moves the label: a submit, and the post succeeding or failing. */
  datatype Event = Submitted | PostSucceeded | PostFailed

  /** Each event sets the label outright, whatever it showed before. */
  function Next(l: Label, e: Event): Label {
    match e
    case Submitted => Adding
    case PostSucceeded => Added
    case PostFailed => AddToLibrary
  }

  /** The label after a sequence of events. */
  function Run(l: Label, es: seq<Event>): Label
    decreases |es|
  {
    if |es| == 0 then l else Run(Next(l, es[0]), es[1..])
  }

  /** A failed submission restores the initial label, from any label. */
  lemma FailedSubmitRestores(l: Label)
    ensures Run(l, [Submitted, PostFailed]) == InitialLabel
  {
    assert [Submitted, PostFailed][1..] == [PostFailed];
  }

  /** A successful one ends on "Added to Library", from any label. */
  lemma SucceededSubmitAdds(l: Label)
    ensures Run(l, [Submitted, PostSucceeded]) == Added
  {
    assert [Submitted, PostSucceeded][1..] == [PostSucceeded];
  }

  /** The three labels read differently. */
  lemma LabelTextsDistinct(a: Label, b: Label)
    ensures a.Text() == b.Text() ==> a == b
  {
    assert AddToLibrary.Text() != Adding.Text() && AddToLibrary.Text() != Added.Text();
    assert Adding.Text() != Added.Text();
  }

  // ---------------------------------------------------------------------------
  // handleSubmit
  // ---------------------------------------------------------------------------

  /** What the handler does, in order. */
  datatype Effect = SetLabel(shown: Label) | Post(data: seq<(string, Input)>) | Navigate(path: string) | Alert(message: string)

  const OurBooksPath: string := "/ourbooks"

  /** Axios resolves for a 2xx status and rejects otherwise. */
  predicate PostSucceeds<P>(x: Exchange<P>) {
    x.Responded? && IsOk(x.status)
  }

  /** The label shown after the effects, starting from `l`. */
  function LabelAfter(l: Label, effects: seq<Effect>): Label
    decreases |effects|
  {
    if |effects| == 0 then l
    else LabelAfter(if effects[0].SetLabel? then effects[0].shown else l, effects[1..])
  }

  /** The events a submission goes through. */
  function EventsOf<P>(x: Exchange<P>): seq<Event> {
    [Submitted, if PostSucceeds(x) then PostSucceeded else PostFailed]
  }

  /** The submit handler, given the form's values and the exchange the post met. The browser
      only fires it for a form that passes its constraint checks. */
  function HandleSubmit<P>(values: map<string, Input>, x: Exchange<P>): (effects: seq<Effect>)
    ensures !Submittable(AddBookForm, values) ==> effects == []
    ensures Submittable(AddBookForm, values) ==>
      |effects| == 4 && effects[0] == SetLabel(Adding) && effects[1] == Post(FormDataOf(AddBookForm, values))
    ensures forall i :: 0 <= i < |effects| && effects[i].Post? ==> exists j :: 0 <= j < i && effects[j] == SetLabel(Adding)
    ensures Navigate(OurBooksPath) in effects <==> Submittable(AddBookForm, values) && PostSucceeds(x)
  {
    if !Submittable(AddBookForm, values) then []
    else
      [SetLabel(Adding), Post(FormDataOf(AddBookForm, values))]
      + if PostSucceeds(x) then [SetLabel(Added), Navigate(OurBooksPath)]
        else [Alert("Failed to book to Library"), SetLabel(AddToLibrary)]
  }

  /** The handler's label updates follow the label machine: after a submission the label is the
      machine's, "Added to Library" on success and the initial label on failure. */
  lemma SubmitFollowsLabelMachine<P>(l: Label, values: map<string, Input>, x: Exchange<P>)
    requires Submittable(AddBookForm, values)
    ensures LabelAfter(l, HandleSubmit(values, x)) == Run(l, EventsOf(x))
    ensures LabelAfter(l, HandleSubmit(values, x)) == if PostSucceeds(x) then Added else InitialLabel
  {
    var e := HandleSubmit(values, x);
    var d := FormDataOf(AddBookForm, values);
    var tail := if PostSucceeds(x) then [SetLabel(Added), Navigate(OurBooksPath)]
                else [Alert("Failed to book to Library"), SetLabel(AddToLibrary)];
    assert e == [SetLabel(Adding), Post(d)] + tail;
    assert e[1..] == [Post(d)] + tail;
    assert e[1..][1..] == tail;
    assert LabelAfter(l, e) == LabelAfter(Adding, tail);
    if PostSucceeds(x) {
      assert tail[1..] == [Navigate(OurBooksPath)];
      assert LabelAfter(Added, [Navigate(OurBooksPath)]) == LabelAfter(Added, []);
      SucceededSubmitAdds(l);
    } else {
      assert tail[1..] == [SetLabel(AddToLibrary)];
      assert LabelAfter(Adding, [SetLabel(AddToLibrary)]) == LabelAfter(AddToLibrary, []);
      FailedSubmitRestores(l);
    }
  }

  /** The posted form data names exactly the six fields, in order, with the year in range. */
  lemma PostedData<P>(values: map<string, Input>, x: Exchange<P>)
    requires Submittable(AddBookForm, values)
    ensures "publishedYear" in values
    ensures HandleSubmit(values, x)[1].data[3] == ("publishedYear", values["publishedYear"])
    ensures Names(AddBookForm) == seq(6, i requires 0 <= i < 6 => HandleSubmit(values, x)[1].data[i].0)
    ensures MinYear <= values["publishedYear"].n.value <= MaxYear
  {
    SubmittedYearInRange(values);
    RequiredFields();
  }
}
