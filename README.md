# Inventory management: client view logic and server product table

This project models the two sequential cores of a small inventory application
and proves properties of them in Dafny.

- **The React client** (`frontend/src/App.js`). It shows the fetched products in a
  table, after a case-insensitive search filter and a sort on the selected column.
  A form creates or edits a product: `editId` is empty in create mode and holds the
  product's id in edit mode. The form is validated before anything is sent, and the
  handlers report success or failure in two message slots.
- **The FastAPI server** (`main.py`). It lists, reads, creates, updates and deletes
  products in a table keyed by id. An explicit id on create or update is checked
  for collisions.

Modules, one file each:

| file | module | models |
|---|---|---|
| `wrappers.dfy` | `Wrappers` | `Option` and `Result` |
| `js_text.dfy` | `JsText` | the JavaScript string operations the client uses: `trim`, `toLowerCase`, `includes`, `String(n)` and `localeCompare` |
| `product_view.dfy` | `ProductView` | `filteredProducts`: the filter predicate, the comparator and the sort |
| `product_form.dfy` | `ProductForm` | `validateForm`, the request payload, the choice between `put` and `post`, and the error text |
| `inventory_app.dfy` | `InventoryApp` | the component state as a `UiState` record, one step function per handler, and the class `App` whose methods update the state slots one setter at a time and are proved equal to the step functions |
| `product_table.dfy` | `ProductTable` | the server handlers as functions on `map<int, Product>`, and the class `Table` whose methods change its `rows` field |

Modelling choices:

- **Field values.** A field that may hold a non-number (price, quantity, every
  form input) is a `Value`: `Undefined`, `Num(real)` or `Str(string)`.
- **`Number()` on strings.** The runtime's `Number()` is a parameter
  `num: string -> Option<real>`, where `None` stands for NaN. Every property
  holds for any such parser, except the example `PriceSortExample`, which takes
  `Number("abc")` to be NaN. Facts about `""` are therefore the parser's:
  JavaScript's `Number("")` is 0, and then an empty price passes `validateForm`.
- **HTTP calls.** Each call is an `Outcome` parameter: `Succeeded`, or
  `Failed(RequestError(detail, message))`. A handler returns the `Request` it
  sends, and whether it starts a refetch. The refetch's result is given to
  `FetchProducts` as a separate event.
- **Edit mode.** `if (editId)` is JavaScript truthiness, so a product with id 0
  is edited through `post`. `Editing` states this.
- **The id input and the id check in edit mode.** `App.js:213` renders the id
  input only in create mode. `App.js:116` tests `form.id` in both modes, and
  `handleEdit` fills it with the product's id (`App.js:158`), so the id check
  also runs when editing. The model keeps the id input out of edit mode: a
  precondition of `App.HandleChange`. Every handler then preserves the
  invariant `IdLocked`: in edit mode, the form's id is `editId`. From it,
  `EditSaveKeepsId` shows that any save in edit mode sends a body whose id is
  the target id, so the server never re-keys the row (`UpdateKeepsKey`).
  `BadIdNeverSaved` shows that a stored product with a negative id can be
  opened for editing but never saved.
- **In-place sort.** `filtered.sort(...)` sorts in place. With an empty query,
  `filtered` is the `products` state array itself, so the collection is reordered
  (`App.FilteredProducts`). The collection never gains or loses a product.
- **Auto-increment.** Creating without an id (or with the falsy id 0) stores the
  row under some positive key not already in use. This is
  `Table.AddProduct`'s `autoKey`.

## Model

A function without an `ensures` of its own is covered by the lemma rows that name it.
Examples: `ProductForm.ValidateForm`; `ProductView.View`, `Filtered`, `Select`,
`Matches` and `Compare`; and `JsText.Trim`, `Includes` and `CompareStrings`.

| member | source | states |
|---|---|---|
| `JsText.TrimStartSpec` | frontend/src/App.js:75 | `trim` drops only leading white space (the ECMAScript WhiteSpace and LineTerminator set) and leaves a suffix that starts with a non-space |
| `JsText.TrimEndSpec` | frontend/src/App.js:75 | `trim` drops only trailing white space and leaves a prefix that ends with a non-space |
| `JsText.TrimIsSlice` | frontend/src/App.js:75 | `s.trim()` is the slice of `s` between its leading and trailing white space, with non-space ends |
| `JsText.TrimEmptyIff` | frontend/src/App.js:111 | the trimmed text is empty exactly when the input is white space only |
| `JsText.TrimIdempotent` | frontend/src/App.js:75 | trimming twice is trimming once |
| `JsText.Lower` | frontend/src/App.js:80-81 | `toLowerCase` keeps the length, maps each character, and leaves no upper-case letter |
| `JsText.LowerIdempotent` | frontend/src/App.js:75 | lowering a lowered string changes nothing |
| `JsText.IncludesIffOccurs` | frontend/src/App.js:79-81 | `s.includes(q)` holds exactly when `q` occurs in `s` at some position |
| `JsText.IntToString` | frontend/src/App.js:79 | `String(id)` is non-empty and has no upper-case letter |
| `JsText.LowerFixesLowercase` | frontend/src/App.js:75 | `toLowerCase` leaves a string without upper-case letters unchanged |
| `JsText.IncludesNoUpper` | frontend/src/App.js:79 | text found inside a string with no upper-case letter has none either |
| `JsText.IntToStringRoundTrip` | frontend/src/App.js:79 | `String(id)` loses nothing: the id can be read back from it |
| `JsText.CompareStringsZero` | frontend/src/App.js:96-97 | `localeCompare` (code-point order) is 0 exactly on equal strings |
| `JsText.CompareStringsAntisymmetric` | frontend/src/App.js:95-97 | swapping the operands of `localeCompare` negates the result |
| `JsText.CompareStringsTransitive` | frontend/src/App.js:96 | the string order is transitive |
| `ProductView.ToNumber` | frontend/src/App.js:89 | `Number(v)` of a number is the number itself; of `undefined` it is NaN |
| `ProductView.DescNegatesAsc` | frontend/src/App.js:91 | for numeric and text columns alike, the `desc` comparison is the negated `asc` comparison |
| `ProductView.DescSwapsAsc` | frontend/src/App.js:95-97 | `desc` compares `a` with `b` the way `asc` compares `b` with `a` |
| `ProductView.InOrderTotal` | frontend/src/App.js:84-99 | the comparator orders every pair one way or the other |
| `ProductView.InOrderTransitive` | frontend/src/App.js:84-99 | the comparator's order is transitive, so sorting with it is well defined |
| `ProductView.SortProducts` | frontend/src/App.js:84 | the sorted output is a permutation of the filtered input: nothing lost or duplicated |
| `ProductView.SortProductsSorted` | frontend/src/App.js:84-99 | every earlier element compares at most 0 with every later one |
| `ProductView.SelectCount` | frontend/src/App.js:77-82 | `products.filter(...)` keeps each matching product with its multiplicity and drops every other product |
| `ProductView.ViewCount` | frontend/src/App.js:73-100 | the view holds each product as often as the collection does when it matches the trimmed, lowercased query (or the query is empty), and otherwise not at all |
| `ProductView.ViewMembership` | frontend/src/App.js:76-82 | soundness and completeness: a product is shown iff it is in the collection and the query occurs in `String(id)`, the lowercased name or the lowercased description, or the query is empty |
| `ProductView.IdMatchSurvivesLowering` | frontend/src/App.js:75-79 | if the trimmed search text occurs in `String(id)`, the lowered text does too: lowering the query never stops an id from matching |
| `ProductView.BlankFilterShowsAll` | frontend/src/App.js:75-76 | a query that is empty or white space only keeps every product |
| `ProductView.ViewNumericOrder` | frontend/src/App.js:87-91 | on `id`, `price` and `quantity` the view is non-decreasing (`asc`) or non-increasing (`desc`) in `Number(v) \|\| 0`, where a non-numeric or absent value counts as 0 |
| `ProductView.ViewTextOrder` | frontend/src/App.js:93-97 | on the other columns the view is in order of the lowercased text, reversed for `desc` |
| `ProductView.DescIsReversedAsc` | frontend/src/App.js:95-97 | when no two products tie on the column, the `desc` order is exactly the reverse of the `asc` order |
| `ProductView.PriceSortExample` | frontend/src/App.js:87-91 | prices 9.99, 1 and "abc" sort ascending as "abc" (read as 0), 1, 9.99 |
| `ProductForm.ValidateFormFirstFailure` | frontend/src/App.js:110-118 | `validateForm` returns `null` iff no check fails; otherwise it returns the message of the first failing check, in the order: blank name or description, price NaN or below 0, quantity NaN or below 0, a truthy id that is NaN or below 1 |
| `ProductForm.FirstFailingIsFirst` | frontend/src/App.js:111-116 | trying the checks in order finds exactly the check that fails with no earlier check failing |
| `ProductForm.MessagesDistinct` | frontend/src/App.js:111-116 | the four messages differ, so the message says which check failed |
| `ProductForm.BuildPayload` | frontend/src/App.js:132-138 | the payload copies name and description and holds `Number(price)` and `Number(quantity)`, both at least 0; it has an `id` iff `form.id` is truthy (not `""`, `0` or `undefined`), and that id is at least 1 |
| `ProductForm.RequestFor` | frontend/src/App.js:140-146 | a truthy `editId` sends `put /products/{editId}`, otherwise `post /products`, with the payload as body |
| `ProductForm.ErrorText` | frontend/src/App.js:150 | the error shown is `detail` if non-empty, else `message` if non-empty, else "Operation failed"; it is never empty |
| `ProductForm.EditFormRoundTrip` | frontend/src/App.js:156-167 | the form filled from a well-formed product passes validation, whatever `Number` does on strings, and its payload gives back the product's own fields and id |
| `ProductForm.EditFormRejectsBadId` | frontend/src/App.js:116 | the unchanged edit form of a stored product with a negative id fails the id check |
| `InventoryApp.SortClicked` | frontend/src/App.js:63-70 | clicking the current column flips the direction and keeps the column; clicking another column selects it with `asc`; nothing else changes |
| `InventoryApp.SortClickedTwice` | frontend/src/App.js:63-70 | two clicks on the current column restore the original state; two clicks on another column leave it selected with `desc` |
| `InventoryApp.Reset` | frontend/src/App.js:104-107 | `resetForm` makes all five inputs `""` and `editId` null; nothing else changes |
| `InventoryApp.Edited` | frontend/src/App.js:156-167 | `handleEdit(p)` copies p's fields into the form, sets `editId` to p's id and clears both messages; nothing else changes |
| `InventoryApp.EditThenCancel` | frontend/src/App.js:261 | cancelling an edit returns to create mode with an empty form, and sends nothing |
| `InventoryApp.Submitted` | frontend/src/App.js:121-154 | a validation failure sets only `error` and sends nothing. Otherwise the request of `RequestFor` is sent and `loading` ends false. On success the form is reset, `editId` becomes null, the matching success message is set and a refetch starts. On failure the form and `editId` are kept and `error` becomes the error text |
| `InventoryApp.RetryAfterFailure` | frontend/src/App.js:149-152 | after a failed request, submitting again sends the same request |
| `InventoryApp.EditThenSubmit` | frontend/src/App.js:138-141 | saving an edited well-formed product sends `put /products/{id}` whose body carries the same id |
| `InventoryApp.Typed` | frontend/src/App.js:103 | `setForm({ ...form, [name]: value })` sets the id input to the typed text, and typing into any other input leaves the id as it was |
| `InventoryApp.HandlersKeepIdLocked` | frontend/src/App.js:213-222 | every handler keeps `IdLocked`, the invariant that in edit mode the form's id is `editId`; typing into the id input keeps it because that input exists only in create mode |
| `InventoryApp.EditSaveKeepsId` | frontend/src/App.js:132-141 | in any state with `IdLocked`, a save in edit mode sends a request iff the form passes validation, and that request is `put /products/{editId}` with `editId` as the body's id |
| `InventoryApp.BadIdNeverSaved` | frontend/src/App.js:116 | in edit mode with a negative `editId`, a save sends nothing and sets an error |
| `InventoryApp.Deleted` | frontend/src/App.js:169-182 | a declined confirmation changes nothing and sends nothing. Otherwise exactly one `delete /products/{id}` is sent; success sets "Product deleted successfully" and refetches, failure sets "Delete failed" |
| `InventoryApp.Fetched` | frontend/src/App.js:46-56 | a successful fetch replaces the collection wholesale and clears `error`; a failed one keeps the collection and sets "Failed to fetch products" |
| `InventoryApp.App.constructor` | frontend/src/App.js:11-25 | the initial state: no products, empty form, create mode, no messages, sorted by `id` ascending; it satisfies `Valid` (`IdLocked`) |
| `InventoryApp.App.HandleSort` | frontend/src/App.js:63-70 | the new state is `SortClicked` of the old one |
| `InventoryApp.App.HandleChange` | frontend/src/App.js:103 | typing into an input replaces that form field with the text and nothing else; the id input is typed into only in create mode (App.js:213), so `Valid` is kept |
| `InventoryApp.App.SetFilter` | frontend/src/App.js:205 | typing into the search box replaces the filter text and nothing else |
| `InventoryApp.App.ResetForm` | frontend/src/App.js:104-107 | the new state is `Reset` of the old one |
| `InventoryApp.App.HandleEdit` | frontend/src/App.js:156-167 | the new state is `Edited` of the old one |
| `InventoryApp.App.HandleSubmit` | frontend/src/App.js:121-154 | the new state, the request and the refetch are those of `Submitted` |
| `InventoryApp.App.HandleDelete` | frontend/src/App.js:169-182 | the new state, the request and the refetch are those of `Deleted` |
| `InventoryApp.App.FetchProducts` | frontend/src/App.js:46-56 | the new state is `Fetched` of the old one |
| `InventoryApp.App.FilteredProducts` | frontend/src/App.js:73-100 | returns the filtered, sorted view; with an empty query the `products` slot itself becomes that view; the collection keeps its elements, and no other slot changes |
| `ProductTable.RowOf` | main.py:79-85 | the stored row carries the given id and the body's four fields |
| `ProductTable.Insert` | main.py:73-97 | fails with 409 "ID already exists" iff the body has a truthy id already in the table, and then leaves the table unchanged. Otherwise it adds one row under that id, or under the fresh auto key when the id is absent or 0, leaving every existing row as it was |
| `ProductTable.Update` | main.py:101-120 | 404 "Product Not Found" for a missing path id; 409 "New ID already exists" when a truthy, different body id is taken; both leave the table unchanged. Otherwise the four fields are replaced, the row moves to the new id when one is given and differs, and no other row changes |
| `ProductTable.Remove` | main.py:124-131 | 404 for a missing id with the table unchanged; otherwise exactly that key is removed and every other row is kept |
| `ProductTable.InsertGrows` | main.py:94-97 | a successful create adds exactly one row |
| `ProductTable.InsertThenRemove` | main.py:125-129 | deleting the row just created gives back the original table |
| `ProductTable.UpdateKeepsCount` | main.py:111-118 | a successful update, re-keying or not, keeps the number of rows |
| `ProductTable.UpdateKeepsKey` | main.py:107-116 | an update of an existing row whose body carries the path id, or no truthy id, succeeds and replaces that row in place, keeping every key |
| `ProductTable.UpdateIdempotent` | main.py:107-116 | repeating an update at the row's new key changes nothing more |
| `ProductTable.FreshKeyExists` | main.py:86-93 | the database can always hand out a positive key not in use |
| `ProductTable.Table.GetAll` | main.py:60-61 | lists every row exactly once and nothing else |
| `ProductTable.Table.GetById` | main.py:65-69 | the row for an existing id, otherwise 404 "Product Not Found" |
| `ProductTable.Table.AddProduct` | main.py:73-97 | the response and new table are `Insert`'s, for some positive key not previously present; ids still match keys |
| `ProductTable.Table.UpdateProduct` | main.py:101-120 | the response and new table are `Update`'s; ids still match keys |
| `ProductTable.Table.DeleteProduct` | main.py:124-131 | the response and new table are `Remove`'s; ids still match keys |

## Left out

- HTTP transport (`axios`, `App.js:6-8`): each call is an outcome parameter. The server's routing, CORS, sessions and `create_all` (`main.py:8-28`) are framework wiring.
- `init_db` seeding (`main.py:31-51`): it depends on the database's sequence and prints a line. `database.py` is configuration only.
- React rendering (`App.js:186-327`) and `Intl.NumberFormat` currency formatting (`App.js:28, 184`).
- The browser's own form checks are not modelled: the `required` attributes (`App.js:229, 237, 245, 254`), `min="1"` (`App.js:220`), `step="0.01"` (`App.js:246`) and the `type="number"` inputs. They can stop a submit before `handleSubmit` runs. `App.HandleSubmit` accepts every form, which over-approximates what the browser lets through.
- The 5-second auto-dismiss timers (`App.js:31-43`): they are deferred callbacks, not state logic.
- Overlapping requests and the `loading` flag as backpressure. Each handler runs to completion as one step. The refetch that `handleSubmit` and `handleDelete` start is a separate `FetchProducts` event.
- `ProductView.ToNumber`: JavaScript's `Number()` on strings is the parameter `num`, not a concrete parser. NaN is `None`, and the `""` → 0 rule is the parser's. IEEE floating point is replaced by `real`, so the model has no `Infinity`: a string such as `"1e400"`, which `Number()` reads as `Infinity`, has no counterpart here.
- `JsText.Lower`: maps only ASCII `A`–`Z`. JavaScript's full Unicode case mapping is not modelled.
- `JsText.CompareStrings`: `localeCompare` is modelled as code-point lexicographic order. Locale collation rules are not modelled.
- `ProductView.SortProducts`: an insertion sort stands for the engine's `Array.prototype.sort`. Only the sorted-permutation result is claimed. The order of tied elements is the insertion sort's.
- `ProductView.Product`: name and description are always strings and the id is always an integer, as the server sends them. Only price and quantity may be absent or non-numeric. A client row with a missing name, which would make `toLowerCase` throw, is not modelled.
- `ProductForm.ErrorText`: `detail` is modelled as a string. The list of objects that FastAPI sends for a 422 response is not modelled.
- `ProductTable.Table.AddProduct`: the SQL auto-increment value is modelled as any positive key not in use. A sequence that collides with an explicitly inserted id, and the database error that would follow, is not modelled.
- The Pydantic model `models.Product` and the SQLAlchemy `database_models` are not part of this model. The request body is taken as an optional integer id plus name, description, a real price and an integer quantity. Type coercion and 422 validation at the server boundary are not modelled.
