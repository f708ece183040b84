/** The administrator's vacation panel: the image-URL and description
    helpers it shares with the user's vacation page, and the edit form's
    state transitions (field edits, start/cancel editing, add, update,
    delete, image drop). Server calls are given by their outcomes. */
module AdminPanel {

  import opened Wrappers
  import JsText
  import ClientApi

  const ImagesBase: string := "http://localhost:3006/images/"

  /** `getImageUrl`: no name gives no URL, an absolute `http…` name is used
      as is, any other name is a file served from the images folder. */
  function ImageUrl(name: string): (r: string)
    ensures name == "" ==> r == ""
    ensures name != "" && JsText.StartsWith(name, "http") ==> r == name
    ensures name != "" && !JsText.StartsWith(name, "http") ==> r == ImagesBase + name
  {
    if name == "" then ""
    else if JsText.StartsWith(name, "http") then name
    else ImagesBase + name
  }

  /** Every URL the helper produces is empty or absolute, so applying it a
      second time changes nothing. */
  lemma ImageUrlIdempotent(name: string)
    ensures ImageUrl(name) == "" || JsText.StartsWith(ImageUrl(name), "http")
    ensures ImageUrl(ImageUrl(name)) == ImageUrl(name)
  {
    if name != "" && !JsText.StartsWith(name, "http") {
      assert (ImagesBase + name)[..4] == "http";
    }
  }

  const Ellipsis: char := '…'

  /** `truncate(str, n)`: a string longer than n keeps `slice(0, n - 1)` and
      gets an ellipsis; a shorter one is returned whole. */
  function Truncate(s: string, n: int): (r: string)
    ensures |s| <= n ==> r == s
    ensures n >= 1 && |s| > n ==>
              |r| == n && r[..n - 1] == s[..n - 1] && r[n - 1] == Ellipsis
  {
    if |s| > n then JsText.Slice(s, 0, n - 1) + [Ellipsis] else s
  }

  /** With a positive limit the result never exceeds the limit, so
      truncating again changes nothing. */
  lemma TruncateIdempotent(s: string, n: int)
    requires n >= 1
    ensures |Truncate(s, n)| <= n
    ensures Truncate(Truncate(s, n), n) == Truncate(s, n)
  {
  }

  /** A limit of 0 slices to `-1`, so the result is as long as the input: the
      last character is replaced by the ellipsis. */
  lemma TruncateZeroKeepsLength(s: string)
    requires |s| >= 1
    ensures |Truncate(s, 0)| == |s| && Truncate(s, 0)[|s| - 1] == Ellipsis
  {
  }

  /** A form field holds the text typed into it, or the number 0 that the
      price starts with. */
  datatype FieldValue = Text(text: string) | Number(n: int)

  /** The form's input names. */
  datatype Field = Destination | Description | StartDate | EndDate | Price | Image

  datatype Form = Form(
    destination: FieldValue,
    description: FieldValue,
    startDate: FieldValue,
    endDate: FieldValue,
    price: FieldValue,
    image: FieldValue)

  function FieldOf(f: Form, k: Field): FieldValue {
    match k
    case Destination => f.destination
    case Description => f.description
    case StartDate => f.startDate
    case EndDate => f.endDate
    case Price => f.price
    case Image => f.image
  }

  const EmptyForm: Form :=
    Form(Text(""), Text(""), Text(""), Text(""), Number(0), Text(""))

  /** A vacation as the panel receives it from the listing. */
  datatype PanelVacation = PanelVacation(
    id: int,
    destination: string,
    description: string,
    startDate: string,
    endDate: string,
    price: FieldValue,
    image: string)

  datatype Panel = Panel(
    vacations: seq<PanelVacation>,
    form: Form,
    editId: Option<int>,
    dialogOpen: bool,
    preview: Option<string>)

  /** `handleChange`: the input's value is stored under the input's name. */
  function HandleChange(f: Form, k: Field, value: string): (r: Form)
    ensures FieldOf(r, k) == Text(value)
    ensures forall g :: g != k ==> FieldOf(r, g) == FieldOf(f, g)
  {
    match k
    case Destination => f.(destination := Text(value))
    case Description => f.(description := Text(value))
    case StartDate => f.(startDate := Text(value))
    case EndDate => f.(endDate := Text(value))
    case Price => f.(price := Text(value))
    case Image => f.(image := Text(value))
  }

  /** Edits of different inputs commute; the later of two edits of one input
      wins. */
  lemma ChangesCommute(f: Form, j: Field, a: string, k: Field, b: string)
    ensures j != k ==> HandleChange(HandleChange(f, j, a), k, b) == HandleChange(HandleChange(f, k, b), j, a)
    ensures j == k ==> HandleChange(HandleChange(f, j, a), k, b) == HandleChange(f, k, b)
  {
    var x := HandleChange(HandleChange(f, j, a), k, b);
    var y := if j != k then HandleChange(HandleChange(f, k, b), j, a) else HandleChange(f, k, b);
    assert forall g :: FieldOf(x, g) == FieldOf(y, g);
    assert x.destination == FieldOf(x, Destination) && y.destination == FieldOf(y, Destination);
    assert x.description == FieldOf(x, Description) && y.description == FieldOf(y, Description);
    assert x.startDate == FieldOf(x, StartDate) && y.startDate == FieldOf(y, StartDate);
    assert x.endDate == FieldOf(x, EndDate) && y.endDate == FieldOf(y, EndDate);
    assert x.price == FieldOf(x, Price) && y.price == FieldOf(y, Price);
    assert x.image == FieldOf(x, Image) && y.image == FieldOf(y, Image);
  }

  /** `handleEdit(v)`: edit mode for v, with all six of its fields copied
      into the form; the dialog and the preview are left alone. */
  function HandleEdit(p: Panel, v: PanelVacation): (r: Panel)
    ensures r.editId == Some(v.id)
    ensures FieldOf(r.form, Destination) == Text(v.destination)
    ensures FieldOf(r.form, Description) == Text(v.description)
    ensures FieldOf(r.form, StartDate) == Text(v.startDate)
    ensures FieldOf(r.form, EndDate) == Text(v.endDate)
    ensures FieldOf(r.form, Price) == v.price
    ensures FieldOf(r.form, Image) == Text(v.image)
    ensures r.vacations == p.vacations && r.preview == p.preview && r.dialogOpen == p.dialogOpen
  {
    p.(editId := Some(v.id),
       form := Form(Text(v.destination), Text(v.description), Text(v.startDate),
                    Text(v.endDate), v.price, Text(v.image)))
  }

  /** `handleCancel`: leave edit mode, reset the form, drop the preview. */
  function HandleCancel(p: Panel): (r: Panel)
    ensures r.editId == None && r.preview == None
    ensures forall k :: FieldOf(r.form, k) == (if k == Price then Number(0) else Text(""))
    ensures r.vacations == p.vacations && r.dialogOpen == p.dialogOpen
  {
    p.(editId := None, form := EmptyForm, preview := None)
  }

  /** Editing a vacation and cancelling leaves the form empty and the panel
      out of edit mode, whatever was being edited. */
  lemma EditThenCancel(p: Panel, v: PanelVacation)
    ensures HandleCancel(HandleEdit(p, v)) == HandleCancel(p)
  {
  }

  /** `fetchVacations`: a failed fetch is logged and keeps the rows. */
  function Refetch(p: Panel, fetched: ClientApi.ApiOutcome<seq<PanelVacation>>): (r: Panel)
    ensures fetched.Success? ==> r == p.(vacations := fetched.data)
    ensures fetched.Failure? ==> r == p
  {
    if fetched.Success? then p.(vacations := fetched.data) else p
  }

  /** The alert after a failed add: the server's message when it sent a
      non-empty one, the fixed text otherwise. */
  function AddFailureMessage(e: ClientApi.ApiError): (m: string)
    ensures e.HttpError? && e.message.Some? && e.message.value != "" ==> m == e.message.value
    ensures !(e.HttpError? && e.message.Some? && e.message.value != "") ==> m == "Failed to add vacation."
  {
    if e.HttpError? && e.message.Some? && e.message.value != "" then e.message.value
    else "Failed to add vacation."
  }

  /** `handleAdd`: post the form; after a successful post the rows are
      refetched (a failed refetch is swallowed), the dialog closes and the
      form and preview are reset. A failed post only alerts and keeps the
      form. */
  function HandleAdd(p: Panel, post: ClientApi.ApiOutcome<()>, fetched: ClientApi.ApiOutcome<seq<PanelVacation>>): (r: (Option<string>, Panel))
    ensures post.Success? ==>
              r.0 == None && r.1.form == EmptyForm && !r.1.dialogOpen && r.1.preview == None &&
              r.1.editId == p.editId &&
              r.1.vacations == (if fetched.Success? then fetched.data else p.vacations)
    ensures post.Failure? ==> r.0 == Some(AddFailureMessage(post.error)) && r.1 == p
  {
    match post
    case Failure(e) => (Some(AddFailureMessage(e)), p)
    case Success(_) =>
      (None, Refetch(p, fetched).(dialogOpen := false, form := EmptyForm, preview := None))
  }

  /** `handleUpdate(id)`: put the form; on success leave edit mode and
      refetch; on failure alert and stay in edit mode. The form is kept
      either way. */
  function HandleUpdate(p: Panel, put: ClientApi.ApiOutcome<()>, fetched: ClientApi.ApiOutcome<seq<PanelVacation>>): (r: (Option<string>, Panel))
    ensures put.Success? ==>
              r.0 == None && r.1.editId == None && r.1.form == p.form &&
              r.1.vacations == (if fetched.Success? then fetched.data else p.vacations)
    ensures put.Failure? ==> r == (Some("Failed to update vacation."), p)
  {
    if put.Success? then (None, Refetch(p.(editId := None), fetched))
    else (Some("Failed to update vacation."), p)
  }

  /** `handleDelete(id)`: nothing happens unless the user confirms; then the
      delete is sent, and a success refetches while a failure alerts. */
  function HandleDelete(p: Panel, confirmed: bool, del: ClientApi.ApiOutcome<()>, fetched: ClientApi.ApiOutcome<seq<PanelVacation>>): (r: (bool, Option<string>, Panel))
    ensures r.0 <==> confirmed
    ensures !confirmed ==> r.1 == None && r.2 == p
    ensures confirmed && del.Failure? ==> r.1 == Some("Failed to delete vacation.") && r.2 == p
    ensures confirmed && del.Success? ==> r.1 == None && r.2 == Refetch(p, fetched)
  {
    if !confirmed then (false, None, p)
    else if del.Failure? then (true, Some("Failed to delete vacation."), p)
    else (true, None, Refetch(p, fetched))
  }

  /** `onDrop`: the first dropped file names the form's image and gets a
      preview; with no file nothing changes. `previewOf` stands for
      `URL.createObjectURL`. */
  function OnDrop(p: Panel, files: seq<string>, previewOf: string -> string): (r: Panel)
    ensures |files| == 0 ==> r == p
    ensures |files| > 0 ==>
              FieldOf(r.form, Image) == Text(files[0]) &&
              (forall k :: k != Image ==> FieldOf(r.form, k) == FieldOf(p.form, k)) &&
              r.preview == Some(previewOf(files[0])) &&
              r.vacations == p.vacations && r.editId == p.editId && r.dialogOpen == p.dialogOpen
  {
    if |files| == 0 then p
    else p.(preview := Some(previewOf(files[0])), form := p.form.(image := Text(files[0])))
  }
}
