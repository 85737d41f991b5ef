/** The inventory component's state and its event handlers (App.js): sorting headers, the
    create/edit form, delete with confirmation, and the refetch of the collection.
    Each handler is specified by a step function on `UiState`; HTTP calls are given as outcomes. */
module InventoryApp {
  import opened Wrappers
  import opened ProductView
  import opened ProductForm

  /** The component's `useState` slots. */
  datatype UiState = UiState(
    products: seq<Product>,
    form: Form,
    editId: Option<int>,
    message: string,
    error: string,
    loading: bool,
    filter: string,
    sortField: SortField,
    sortDirection: Direction)

  /** The state on mount, before the first fetch completes. */
  const Initial := UiState([], EmptyForm, None, "", "", false, "", Id, Asc)

  /** How a request ended. */
  datatype Outcome = Succeeded | Failed(err: RequestError)

  /** A handler's effect: the new state, the request it sent, and whether it asked for a refetch. */
  datatype Step = Step(next: UiState, request: Option<Request>, refetch: bool)

  function Flip(d: Direction): Direction {
    if d == Asc then Desc else Asc
  }

  /** `handleSort(field)`. */
  function SortClicked(s: UiState, field: SortField): (t: UiState)
    ensures t == s.(sortField := field, sortDirection := t.sortDirection)
    ensures s.sortField == field ==> t.sortDirection != s.sortDirection
    ensures s.sortField != field ==> t.sortDirection == Asc
  {
    if s.sortField == field then s.(sortDirection := Flip(s.sortDirection))
    else s.(sortField := field, sortDirection := Asc)
  }

  /** Clicking the same header twice restores the direction when it was the current column,
      and leaves it `desc` when it was not. */
  lemma SortClickedTwice(s: UiState, field: SortField)
    ensures var t := SortClicked(SortClicked(s, field), field);
      if s.sortField == field then t == s else t == s.(sortField := field, sortDirection := Desc)
  {
  }

  /** `resetForm()`. */
  function Reset(s: UiState): (t: UiState)
    ensures t.form.id == Str("") && t.form.name == "" && t.form.description == ""
    ensures t.form.price == Str("") && t.form.quantity == Str("")
    ensures t.editId == None && !Editing(t.editId)
    ensures t.(form := s.form, editId := s.editId) == s
  {
    s.(form := EmptyForm, editId := None)
  }

  /** `handleEdit(p)`. */
  function Edited(s: UiState, p: Product): (t: UiState)
    ensures t.form.id == Num(p.id as real) && t.form.name == p.name && t.form.description == p.description
    ensures t.form.price == p.price && t.form.quantity == p.quantity
    ensures t.editId == Some(p.id) && t.message == "" && t.error == ""
    ensures t.(form := s.form, editId := s.editId, message := s.message, error := s.error) == s
    ensures Editing(t.editId) <==> p.id != 0
  {
    s.(form := EditForm(p), editId := Some(p.id), message := "", error := "")
  }

  /** Cancelling an edit returns to create mode with an empty form; nothing is sent. */
  lemma EditThenCancel(s: UiState, p: Product)
    ensures Reset(Edited(s, p)) == s.(form := EmptyForm, editId := None, message := "", error := "")
  {
  }

  /** `handleSubmit` with the outcome of the request it sends. */
  function Submitted(s: UiState, o: Outcome, num: NumberParser): (r: Step)
    ensures ValidateForm(s.form, num).Some? ==>
      r == Step(s.(error := ValidateForm(s.form, num).value), None, false)
    ensures ValidateForm(s.form, num).None? ==>
      && r.request == Some(RequestFor(s.editId, BuildPayload(s.form, num)))
      && r.next == s.(form := r.next.form, editId := r.next.editId, message := r.next.message,
                      error := r.next.error, loading := false)
    ensures ValidateForm(s.form, num).None? && o.Succeeded? ==>
      && r.next.form == EmptyForm && r.next.editId == None
      && r.next.message == SuccessMessage(s.editId) && r.next.error == "" && r.refetch
    ensures ValidateForm(s.form, num).None? && o.Failed? ==>
      && r.next.form == s.form && r.next.editId == s.editId
      && r.next.message == "" && r.next.error == ErrorText(o.err) && !r.refetch
  {
    match ValidateForm(s.form, num)
    case Some(msg) => Step(s.(error := msg), None, false)
    case None =>
      var request := RequestFor(s.editId, BuildPayload(s.form, num));
      var busy := s.(loading := true, message := "", error := "");
      match o
      case Succeeded =>
        var done := Reset(busy.(message := SuccessMessage(s.editId)));
        Step(done.(loading := false), Some(request), true)
      case Failed(e) =>
        Step(busy.(error := ErrorText(e), loading := false), Some(request), false)
  }

  /** After a failed request the form and mode are kept, so submitting again sends the same request. */
  lemma RetryAfterFailure(s: UiState, e: RequestError, o: Outcome, num: NumberParser)
    ensures Submitted(Submitted(s, Failed(e), num).next, o, num).request == Submitted(s, o, num).request
  {
  }

  /** Editing a well-formed product and saving it unchanged sends `put /products/{id}` whose body
      carries the same id. */
  lemma EditThenSubmit(s: UiState, p: Product, o: Outcome, num: NumberParser)
    requires WellFormed(p)
    ensures Submitted(Edited(s, p), o, num).request
      == Some(Put(p.id, Payload(Some(p.id as real), p.name, p.description, p.price.n, p.quantity.n)))
  {
    EditFormRoundTrip(p, num);
  }

  /** `handleDelete(id)`, where `confirmed` is the answer to `window.confirm`. */
  function Deleted(s: UiState, id: int, confirmed: bool, o: Outcome): (r: Step)
    ensures !confirmed ==> r == Step(s, None, false)
    ensures confirmed ==>
      && r.request == Some(Delete(id))
      && r.next == s.(message := r.next.message, error := r.next.error, loading := false)
      && (o.Succeeded? ==> r.next.message == "Product deleted successfully" && r.next.error == "" && r.refetch)
      && (o.Failed? ==> r.next.message == "" && r.next.error == "Delete failed" && !r.refetch)
  {
    if !confirmed then Step(s, None, false)
    else
      var busy := s.(loading := true, message := "", error := "");
      match o
      case Succeeded => Step(busy.(message := "Product deleted successfully", loading := false), Some(Delete(id)), true)
      case Failed(_) => Step(busy.(error := "Delete failed", loading := false), Some(Delete(id)), false)
  }

  /** `fetchProducts()` with the response of `get /products`: the collection is replaced wholesale. */
  function Fetched(s: UiState, response: Option<seq<Product>>): (t: UiState)
    ensures response.Some? ==> t == s.(products := response.value, error := "", loading := false)
    ensures response.None? ==> t == s.(error := "Failed to fetch products", loading := false)
  {
    var busy := s.(loading := true);
    match response
    case Some(ps) => busy.(products := ps, error := "", loading := false)
    case None => busy.(error := "Failed to fetch products", loading := false)
  }

  /** The five inputs `handleChange` writes to, by their `name` attribute. */
  datatype Input = IdInput | NameInput | DescriptionInput | PriceInput | QuantityInput

  /** `setForm({ ...form, [name]: value })`: only the named input changes. */
  function Typed(f: Form, input: Input, value: string): (r: Form)
    ensures input == IdInput ==> r == f.(id := Str(value))
    ensures input == NameInput ==> r == f.(name := value)
    ensures input == DescriptionInput ==> r == f.(description := value)
    ensures input == PriceInput ==> r == f.(price := Str(value))
    ensures input == QuantityInput ==> r == f.(quantity := Str(value))
    ensures input != IdInput ==> r.id == f.id
  {
    match input
    case IdInput => f.(id := Str(value))
    case NameInput => f.(name := value)
    case DescriptionInput => f.(description := value)
    case PriceInput => f.(price := Str(value))
    case QuantityInput => f.(quantity := Str(value))
  }

  /** The id input is rendered only in create mode, so while editing the form's id stays the
      id of the product being edited. Every reachable state has this property. */
  predicate IdLocked(s: UiState) {
    Editing(s.editId) ==> s.form.id == Num(s.editId.value as real)
  }

  /** Every handler keeps the form's id locked in edit mode; typing into the id input is possible
      only in create mode. */
  lemma HandlersKeepIdLocked(s: UiState, field: SortField, p: Product, o: Outcome, num: NumberParser,
                             id: int, confirmed: bool, response: Option<seq<Product>>,
                             input: Input, value: string, text: string)
    requires IdLocked(s)
    ensures IdLocked(SortClicked(s, field))
    ensures IdLocked(Reset(s)) && IdLocked(Edited(s, p))
    ensures IdLocked(Submitted(s, o, num).next)
    ensures IdLocked(Deleted(s, id, confirmed, o).next)
    ensures IdLocked(Fetched(s, response))
    ensures IdLocked(s.(filter := text))
    ensures (input == IdInput ==> !Editing(s.editId)) ==> IdLocked(s.(form := Typed(s.form, input, value)))
  {
  }

  /** Whatever was typed while editing, a save sends `put /products/{editId}` whose body carries
      `editId` itself, so the server keeps the row under its key (`ProductTable.UpdateKeepsKey`). */
  lemma EditSaveKeepsId(s: UiState, o: Outcome, num: NumberParser)
    requires IdLocked(s) && Editing(s.editId)
    ensures var r := Submitted(s, o, num).request;
      && (r.Some? <==> ValidateForm(s.form, num).None?)
      && (r.Some? ==> r.value.Put? && r.value.target == s.editId.value
                      && r.value.body.id == Some(s.editId.value as real))
  {
  }

  /** A product whose stored id is negative can be opened for editing but never saved: the id
      input is hidden, and `validateForm` rejects the id in edit mode too. */
  lemma BadIdNeverSaved(s: UiState, o: Outcome, num: NumberParser)
    requires IdLocked(s) && Editing(s.editId) && s.editId.value < 1
    ensures Submitted(s, o, num).request == None
    ensures Submitted(s, o, num).next.error != ""
  {
    assert Fails(IdCheck, s.form, num);
    ValidateFormFirstFailure(s.form, num);
  }

  /** The component itself: one field per state slot, one method per handler. */
  class App {
    /** `Number(s)` of the JavaScript runtime. */
    const num: NumberParser

    var products: seq<Product>
    var form: Form
    var editId: Option<int>
    var message: string
    var error: string
    var loading: bool
    var filter: string
    var sortField: SortField
    var sortDirection: Direction

    function State(): UiState
      reads this
    {
      UiState(products, form, editId, message, error, loading, filter, sortField, sortDirection)
    }

    /** The state invariant of the component: see `IdLocked`. */
    predicate Valid()
      reads this
    {
      IdLocked(State())
    }

    constructor (num: NumberParser)
      ensures this.num == num && State() == Initial && Valid()
    {
      this.num := num;
      products := [];
      form := EmptyForm;
      editId := None;
      message := "";
      error := "";
      loading := false;
      filter := "";
      sortField := Id;
      sortDirection := Asc;
    }

    method HandleSort(field: SortField)
      requires Valid()
      modifies this
      ensures Valid()
      ensures State() == SortClicked(old(State()), field)
    {
      if sortField == field {
        sortDirection := Flip(sortDirection);
      } else {
        sortField := field;
        sortDirection := Asc;
      }
    }

    /** The id input exists only in create mode. */
    method HandleChange(input: Input, value: string)
      requires Valid()
      requires input == IdInput ==> !Editing(editId)
      modifies this
      ensures Valid()
      ensures State() == old(State()).(form := Typed(old(form), input, value))
    {
      match input
      case IdInput => form := form.(id := Str(value));
      case NameInput => form := form.(name := value);
      case DescriptionInput => form := form.(description := value);
      case PriceInput => form := form.(price := Str(value));
      case QuantityInput => form := form.(quantity := Str(value));
    }

    method SetFilter(text: string)
      requires Valid()
      modifies this
      ensures Valid()
      ensures State() == old(State()).(filter := text)
    {
      filter := text;
    }

    method ResetForm()
      requires Valid()
      modifies this
      ensures Valid()
      ensures State() == Reset(old(State()))
    {
      form := EmptyForm;
      editId := None;
    }

    method HandleEdit(p: Product)
      requires Valid()
      modifies this
      ensures Valid()
      ensures State() == Edited(old(State()), p)
    {
      form := EditForm(p);
      editId := Some(p.id);
      message := "";
      error := "";
    }

    method HandleSubmit(outcome: Outcome) returns (request: Option<Request>, refetch: bool)
      requires Valid()
      modifies this
      ensures Valid()
      ensures Step(State(), request, refetch) == Submitted(old(State()), outcome, num)
    {
      var validationError := ValidateForm(form, num);
      if validationError.Some? {
        error := validationError.value;
        return None, false;
      }
      loading := true;
      message := "";
      error := "";
      var payload := BuildPayload(form, num);
      request := Some(RequestFor(editId, payload));
      refetch := false;
      match outcome {
        case Succeeded =>
          message := SuccessMessage(editId);
          ResetForm();
          refetch := true;
        case Failed(e) =>
          error := ErrorText(e);
      }
      loading := false;
    }

    method HandleDelete(id: int, confirmed: bool, outcome: Outcome) returns (request: Option<Request>, refetch: bool)
      requires Valid()
      modifies this
      ensures Valid()
      ensures Step(State(), request, refetch) == Deleted(old(State()), id, confirmed, outcome)
    {
      if !confirmed {
        return None, false;
      }
      loading := true;
      message := "";
      error := "";
      request := Some(Delete(id));
      refetch := false;
      match outcome {
        case Succeeded =>
          message := "Product deleted successfully";
          refetch := true;
        case Failed(_) =>
          error := "Delete failed";
      }
      loading := false;
    }

    method FetchProducts(response: Option<seq<Product>>)
      requires Valid()
      modifies this
      ensures Valid()
      ensures State() == Fetched(old(State()), response)
    {
      loading := true;
      match response {
        case Some(ps) =>
          products := ps;
          error := "";
        case None =>
          error := "Failed to fetch products";
      }
      loading := false;
    }

    /** `filteredProducts`. `filtered.sort` sorts in place, so with an empty query the
        `products` slot itself is reordered; it never loses or gains a product. */
    method FilteredProducts() returns (view: seq<Product>)
      requires Valid()
      modifies this
      ensures Valid()
      ensures view == View(old(products), filter, sortField, sortDirection, num)
      ensures products == if Query(filter) == "" then view else old(products)
      ensures multiset(products) == multiset(old(products))
      ensures State() == old(State()).(products := products)
    {
      var filtered := Filtered(products, filter);
      view := SortProducts(filtered, sortField, sortDirection, num);
      if Query(filter) == "" {
        products := view;
      }
    }
  }
}
