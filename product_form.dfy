/** The product form of the client: validation, the request body it sends and how it
    reports a failed request (App.js, `validateForm`, `handleSubmit`, `handleEdit`). */
module ProductForm {
  import opened Wrappers
  import opened JsText
  import opened ProductView

  /** The five inputs. Typed input is text; `handleEdit` copies the product's own values in. */
  datatype Form = Form(id: Value, name: string, description: string, price: Value, quantity: Value)

  /** The form after `resetForm`: every input `""`. */
  const EmptyForm := Form(Str(""), "", "", Str(""), Str(""))

  /** JavaScript truthiness of a field value: `undefined`, `0` and `""` are false. */
  predicate Truthy(v: Value) {
    match v
    case Undefined => false
    case Num(n) => n != 0.0
    case Str(s) => s != ""
  }

  /** The four checks of `validateForm`, in the order it makes them. */
  datatype Check = NameCheck | PriceCheck | QuantityCheck | IdCheck

  function Rank(c: Check): nat {
    match c
    case NameCheck => 0
    case PriceCheck => 1
    case QuantityCheck => 2
    case IdCheck => 3
  }

  function Message(c: Check): string {
    match c
    case NameCheck => "Name and description are required."
    case PriceCheck => "Price must be a positive number."
    case QuantityCheck => "Quantity must be a positive integer."
    case IdCheck => "ID must be a positive integer."
  }

  lemma MessagesDistinct(c: Check, d: Check)
    ensures Message(c) == Message(d) ==> c == d
  {
    if Message(c) == Message(d) {
      assert Message(c)[0] == Message(d)[0];
    }
  }

  /** `isNaN(Number(v)) || Number(v) < bound`. */
  predicate BelowOrNaN(v: Value, bound: real, num: NumberParser) {
    var x := ToNumber(v, num);
    x.None? || x.value < bound
  }

  /** When each check rejects the form. */
  predicate Fails(c: Check, form: Form, num: NumberParser) {
    match c
    case NameCheck => Trim(form.name) == "" || Trim(form.description) == ""
    case PriceCheck => BelowOrNaN(form.price, 0.0, num)
    case QuantityCheck => BelowOrNaN(form.quantity, 0.0, num)
    case IdCheck => Truthy(form.id) && BelowOrNaN(form.id, 1.0, num)
  }

  /** `c` is the first check, in the fixed order, that rejects the form. */
  predicate FirstFailure(c: Check, form: Form, num: NumberParser) {
    Fails(c, form, num) && forall d :: Rank(d) < Rank(c) ==> !Fails(d, form, num)
  }

  /** `validateForm()`: a message, or `None` (JavaScript `null`) when the form may be sent. */
  function ValidateForm(form: Form, num: NumberParser): Option<string> {
    if Trim(form.name) == "" || Trim(form.description) == "" then Some(Message(NameCheck))
    else
      var price := ToNumber(form.price, num);
      var quantity := ToNumber(form.quantity, num);
      if price.None? || price.value < 0.0 then Some(Message(PriceCheck))
      else if quantity.None? || quantity.value < 0.0 then Some(Message(QuantityCheck))
      else if Truthy(form.id) && (ToNumber(form.id, num).None? || ToNumber(form.id, num).value < 1.0) then
        Some(Message(IdCheck))
      else None
  }

  /** `validateForm` returns the message of the first failing check in the fixed order,
      and `null` exactly when no check fails. */
  lemma ValidateFormFirstFailure(form: Form, num: NumberParser)
    ensures ValidateForm(form, num).None? <==> forall c :: !Fails(c, form, num)
    ensures forall c :: ValidateForm(form, num) == Some(Message(c)) <==> FirstFailure(c, form, num)
  {
    var r := ValidateForm(form, num);
    var first := FirstFailing(form, num);
    assert r == if first.Some? then Some(Message(first.value)) else None;
    forall c
      ensures r == Some(Message(c)) <==> FirstFailure(c, form, num)
    {
      FirstFailingIsFirst(form, num, c);
      if first.Some? {
        MessagesDistinct(c, first.value);
      }
    }
  }

  /** The first failing check, found by trying them in order. */
  function FirstFailing(form: Form, num: NumberParser): Option<Check> {
    if Fails(NameCheck, form, num) then Some(NameCheck)
    else if Fails(PriceCheck, form, num) then Some(PriceCheck)
    else if Fails(QuantityCheck, form, num) then Some(QuantityCheck)
    else if Fails(IdCheck, form, num) then Some(IdCheck)
    else None
  }

  lemma FirstFailingIsFirst(form: Form, num: NumberParser, c: Check)
    ensures FirstFailing(form, num) == Some(c) <==> FirstFailure(c, form, num)
    ensures FirstFailing(form, num).None? ==> !Fails(c, form, num)
  {
    if FirstFailure(c, form, num) {
      match c
      case NameCheck =>
      case PriceCheck => assert Rank(NameCheck) < Rank(c);
      case QuantityCheck => assert Rank(NameCheck) < Rank(c) && Rank(PriceCheck) < Rank(c);
      case IdCheck =>
        assert Rank(NameCheck) < Rank(c) && Rank(PriceCheck) < Rank(c) && Rank(QuantityCheck) < Rank(c);
    }
  }

  /** The JSON body of the create or update request. */
  datatype Payload = Payload(id: Option<real>, name: string, description: string, price: real, quantity: real)

  /** The payload `handleSubmit` builds once validation has passed. */
  function BuildPayload(form: Form, num: NumberParser): (p: Payload)
    requires ValidateForm(form, num).None?
    ensures p.name == form.name && p.description == form.description
    ensures Some(p.price) == ToNumber(form.price, num) && p.price >= 0.0
    ensures Some(p.quantity) == ToNumber(form.quantity, num) && p.quantity >= 0.0
    ensures p.id.Some? <==> Truthy(form.id)
    ensures p.id.Some? ==> Some(p.id.value) == ToNumber(form.id, num) && p.id.value >= 1.0
  {
    assert !Fails(PriceCheck, form, num) && !Fails(QuantityCheck, form, num) && !Fails(IdCheck, form, num);
    var body := Payload(None, form.name, form.description,
                        ToNumber(form.price, num).value, ToNumber(form.quantity, num).value);
    if Truthy(form.id) then body.(id := Some(ToNumber(form.id, num).value)) else body
  }

  /** A request the client sends. */
  datatype Request = Post(body: Payload) | Put(target: int, body: Payload) | Delete(target: int)

  /** `if (editId)`: the form is in edit mode when `editId` is set and not the falsy id 0. */
  predicate Editing(editId: Option<int>) {
    editId.Some? && editId.value != 0
  }

  /** `put /products/{editId}` in edit mode, `post /products` otherwise. */
  function RequestFor(editId: Option<int>, body: Payload): (r: Request)
    ensures r.Put? <==> Editing(editId)
    ensures r.Post? <==> !Editing(editId)
    ensures r.Put? ==> r.target == editId.value
    ensures r.body == body
  {
    if Editing(editId) then Put(editId.value, body) else Post(body)
  }

  function SuccessMessage(editId: Option<int>): string {
    if Editing(editId) then "Product updated successfully" else "Product created successfully"
  }

  /** What a rejected request carries: `err.response?.data?.detail` and `err.message`. */
  datatype RequestError = RequestError(detail: Option<string>, message: string)

  /** `detail || message || "Operation failed"`: the first non-empty of the three. */
  function ErrorText(e: RequestError): (r: string)
    ensures r != ""
    ensures e.detail.Some? && e.detail.value != "" ==> r == e.detail.value
    ensures (e.detail.None? || e.detail.value == "") && e.message != "" ==> r == e.message
    ensures (e.detail.None? || e.detail.value == "") && e.message == "" ==> r == "Operation failed"
  {
    var detail := if e.detail.Some? then e.detail.value else "";
    if detail != "" then detail else if e.message != "" then e.message else "Operation failed"
  }

  /** The form `handleEdit(p)` fills in: the product's own values, its id included. */
  function EditForm(p: Product): Form {
    Form(Num(p.id as real), p.name, p.description, p.price, p.quantity)
  }

  /** A product as the server would accept it back: every field passes validation. */
  predicate WellFormed(p: Product) {
    && p.id >= 1
    && Trim(p.name) != "" && Trim(p.description) != ""
    && p.price.Num? && p.price.n >= 0.0
    && p.quantity.Num? && p.quantity.n >= 0.0
  }

  /** Editing a well-formed product and submitting it unchanged passes validation, whatever `Number`
      does on strings, and sends the product's own values back with its own id. */
  lemma EditFormRoundTrip(p: Product, num: NumberParser)
    requires WellFormed(p)
    ensures ValidateForm(EditForm(p), num).None?
    ensures BuildPayload(EditForm(p), num)
      == Payload(Some(p.id as real), p.name, p.description, p.price.n, p.quantity.n)
  {
    assert forall c :: !Fails(c, EditForm(p), num);
  }

  /** The unchanged edit form of a product whose stored id is negative fails the id check,
      which runs in edit mode too; `InventoryApp.BadIdNeverSaved` covers any save. */
  lemma EditFormRejectsBadId(p: Product, num: NumberParser)
    requires p.id < 0
    requires Trim(p.name) != "" && Trim(p.description) != ""
    requires p.price.Num? && p.price.n >= 0.0 && p.quantity.Num? && p.quantity.n >= 0.0
    ensures ValidateForm(EditForm(p), num) == Some(Message(IdCheck))
  {
    assert FirstFailure(IdCheck, EditForm(p), num);
  }
}
