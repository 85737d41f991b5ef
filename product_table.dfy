/** The server's product table (main.py): the CRUD handlers acting on rows keyed by id.
    The database is a map from id to row; an HTTP error is a status and a detail text. */
module ProductTable {
  import opened Wrappers

  /** A stored row; its `id` column is its key. */
  datatype Product = Product(id: int, name: string, description: string, price: real, quantity: int)

  /** The request body: an optional id and the four fields. */
  datatype ProductIn = ProductIn(id: Option<int>, name: string, description: string, price: real, quantity: int)

  datatype HttpError = HttpError(status: int, detail: string)

  type Rows = map<int, Product>

  /** A handler's effect: its response and the table afterwards. */
  datatype Change<T> = Change(response: Result<T, HttpError>, rows: Rows)

  const NotFound := HttpError(404, "Product Not Found")
  const IdTaken := HttpError(409, "ID already exists")
  const NewIdTaken := HttpError(409, "New ID already exists")
  const DeletedMessage := "Product Deleted Successfully"

  /** Every row sits under its own id. */
  ghost predicate KeyedById(rows: Rows) {
    forall k :: k in rows ==> rows[k].id == k
  }

  /** Python truthiness of `product.id`: `None` and `0` are false. */
  predicate HasId(p: ProductIn) {
    p.id.Some? && p.id.value != 0
  }

  /** The row built from a body, stored under `id`. */
  function RowOf(id: int, p: ProductIn): (r: Product)
    ensures r.id == id && r.name == p.name && r.description == p.description
    ensures r.price == p.price && r.quantity == p.quantity
  {
    Product(id, p.name, p.description, p.price, p.quantity)
  }

  /** `add_product`, where `autoKey` is the key the database's auto-increment hands out. */
  function Insert(rows: Rows, p: ProductIn, autoKey: int): (c: Change<Product>)
    requires KeyedById(rows) && autoKey !in rows
    ensures KeyedById(c.rows)
    ensures c.response.Failure? <==> HasId(p) && p.id.value in rows
    ensures c.response.Failure? ==> c.response.error == IdTaken && c.rows == rows
    ensures c.response.Success? ==>
      var q := c.response.value;
      && q == RowOf(if HasId(p) then p.id.value else autoKey, p)
      && q.id !in rows
      && c.rows.Keys == rows.Keys + {q.id}
      && c.rows[q.id] == q
      && (forall k :: k in rows ==> c.rows[k] == rows[k])
  {
    if HasId(p) then
      if p.id.value in rows then Change(Failure(IdTaken), rows)
      else
        var q := RowOf(p.id.value, p);
        Change(Success(q), rows[q.id := q])
    else
      var q := RowOf(autoKey, p);
      Change(Success(q), rows[autoKey := q])
  }

  /** The key a row ends up under after `update_product(id, p)` succeeds. */
  function NewKey(id: int, p: ProductIn): int {
    if HasId(p) && p.id.value != id then p.id.value else id
  }

  /** `update_product(id, p)`. */
  function Update(rows: Rows, id: int, p: ProductIn): (c: Change<Product>)
    requires KeyedById(rows)
    ensures KeyedById(c.rows)
    ensures id !in rows ==> c == Change(Failure(NotFound), rows)
    ensures id in rows && HasId(p) && p.id.value != id && p.id.value in rows ==>
      c == Change(Failure(NewIdTaken), rows)
    ensures c.response.Success? <==> id in rows && (NewKey(id, p) == id || NewKey(id, p) !in rows)
    ensures c.response.Success? ==>
      var q := c.response.value;
      && q == RowOf(NewKey(id, p), p)
      && c.rows.Keys == rows.Keys - {id} + {q.id}
      && c.rows[q.id] == q
      && (forall k :: k in rows && k != id ==> c.rows[k] == rows[k])
  {
    if id !in rows then Change(Failure(NotFound), rows)
    else if HasId(p) && p.id.value != id && p.id.value in rows then Change(Failure(NewIdTaken), rows)
    else
      var q := RowOf(NewKey(id, p), p);
      Change(Success(q), (rows - {id})[q.id := q])
  }

  /** `delete_product(id)`. */
  function Remove(rows: Rows, id: int): (c: Change<string>)
    requires KeyedById(rows)
    ensures KeyedById(c.rows)
    ensures id !in rows ==> c == Change(Failure(NotFound), rows)
    ensures id in rows ==>
      && c.response == Success(DeletedMessage)
      && c.rows.Keys == rows.Keys - {id}
      && (forall k :: k in c.rows ==> c.rows[k] == rows[k])
  {
    if id !in rows then Change(Failure(NotFound), rows) else Change(Success(DeletedMessage), rows - {id})
  }

  /** A successful insert adds exactly one row. */
  lemma InsertGrows(rows: Rows, p: ProductIn, autoKey: int)
    requires KeyedById(rows) && autoKey !in rows
    requires Insert(rows, p, autoKey).response.Success?
    ensures |Insert(rows, p, autoKey).rows| == |rows| + 1
  {
    var c := Insert(rows, p, autoKey);
    assert c.rows.Keys == rows.Keys + {c.response.value.id};
  }

  /** Deleting the row just added gives back the table as it was. */
  lemma InsertThenRemove(rows: Rows, p: ProductIn, autoKey: int)
    requires KeyedById(rows) && autoKey !in rows
    requires Insert(rows, p, autoKey).response.Success?
    ensures var c := Insert(rows, p, autoKey);
      Remove(c.rows, c.response.value.id) == Change(Success(DeletedMessage), rows)
  {
    var c := Insert(rows, p, autoKey);
    var d := Remove(c.rows, c.response.value.id);
    assert d.rows == rows;
  }

  /** A successful update neither adds nor removes a row. */
  lemma UpdateKeepsCount(rows: Rows, id: int, p: ProductIn)
    requires KeyedById(rows)
    requires Update(rows, id, p).response.Success?
    ensures |Update(rows, id, p).rows| == |rows|
  {
    var c := Update(rows, id, p);
    var k := NewKey(id, p);
    assert |rows - {id}| == |rows| - 1;
    assert k !in rows - {id};
  }

  /** An update of an existing row whose body carries the path id, or no truthy id, succeeds
      and leaves the row under its key: the key set is unchanged. */
  lemma UpdateKeepsKey(rows: Rows, id: int, p: ProductIn)
    requires KeyedById(rows) && id in rows
    requires p.id == Some(id) || !HasId(p)
    ensures var c := Update(rows, id, p);
      && c.response == Success(RowOf(id, p))
      && c.rows.Keys == rows.Keys
      && c.rows == rows[id := RowOf(id, p)]
  {
    var c := Update(rows, id, p);
    assert NewKey(id, p) == id;
    assert c.rows.Keys == rows.Keys;
  }

  /** Sending the same update again to the row's new key changes nothing more. */
  lemma UpdateIdempotent(rows: Rows, id: int, p: ProductIn)
    requires KeyedById(rows)
    requires Update(rows, id, p).response.Success?
    ensures var c := Update(rows, id, p);
      Update(c.rows, NewKey(id, p), p) == c
  {
    var c := Update(rows, id, p);
    var k := NewKey(id, p);
    assert NewKey(k, p) == k;
    var d := Update(c.rows, k, p);
    assert d.rows == c.rows;
  }

  /** A non-empty set of keys has an element to pick. */
  lemma HasSomeKey(keys: set<int>)
    requires keys != {}
    ensures exists k :: k in keys
  {
    if forall k :: k !in keys {
      assert false;
    }
  }

  /** The database can always hand out a positive key that is not in use. */
  lemma {:induction false} FreshKeyExists(keys: set<int>)
    ensures exists b :: b > 0 && b !in keys && forall k :: k in keys ==> k < b
    decreases |keys|
  {
    if keys != {} {
      HasSomeKey(keys);
      var x :| x in keys;
      FreshKeyExists(keys - {x});
      var b :| b > 0 && b !in keys - {x} && forall k :: k in keys - {x} ==> k < b;
      var c := if x < b then b else x + 1;
      forall k | k in keys
        ensures k < c
      {
        if k != x {
          assert k in keys - {x};
        }
      }
      assert c > 0 && c !in keys;
    } else {
      assert 1 > 0 && 1 !in keys;
    }
  }

  /** The product table behind the API. */
  class Table {
    var rows: Rows

    ghost predicate Valid()
      reads this
    {
      KeyedById(rows)
    }

    constructor ()
      ensures Valid() && rows == map[]
    {
      rows := map[];
    }

    /** `get_all_products`: every row once. */
    method GetAll() returns (all: seq<Product>)
      requires Valid()
      ensures |all| == |rows|
      ensures forall p :: p in all <==> p.id in rows && rows[p.id] == p
      ensures forall i, j :: 0 <= i < j < |all| ==> all[i].id != all[j].id
    {
      all := [];
      var left := rows.Keys;
      while left != {}
        invariant left <= rows.Keys
        invariant |all| + |left| == |rows.Keys|
        invariant forall i :: 0 <= i < |all| ==> all[i].id in rows && rows[all[i].id] == all[i] && all[i].id !in left
        invariant forall k :: k in rows && k !in left ==> rows[k] in all
        invariant forall i, j :: 0 <= i < j < |all| ==> all[i].id != all[j].id
        decreases left
      {
        HasSomeKey(left);
        var k :| k in left;
        all := all + [rows[k]];
        left := left - {k};
      }
    }

    /** `get_product_by_id`. */
    method GetById(id: int) returns (r: Result<Product, HttpError>)
      requires Valid()
      ensures r.Success? <==> id in rows
      ensures r.Success? ==> r.value == rows[id] && r.value.id == id
      ensures r.Failure? ==> r.error == NotFound
    {
      if id in rows {
        r := Success(rows[id]);
      } else {
        r := Failure(NotFound);
      }
    }

    /** `add_product`: the auto-incremented key is some positive key not in use. */
    method AddProduct(p: ProductIn) returns (r: Result<Product, HttpError>)
      requires Valid()
      modifies this
      ensures Valid()
      ensures exists autoKey :: autoKey > 0 && autoKey !in old(rows)
                && Change(r, rows) == Insert(old(rows), p, autoKey)
    {
      FreshKeyExists(rows.Keys);
      var autoKey :| autoKey > 0 && autoKey !in rows;
      if HasId(p) {
        if p.id.value in rows {
          return Failure(IdTaken);
        }
        var q := Product(p.id.value, p.name, p.description, p.price, p.quantity);
        rows := rows[q.id := q];
        r := Success(q);
      } else {
        var q := Product(autoKey, p.name, p.description, p.price, p.quantity);
        rows := rows[autoKey := q];
        r := Success(q);
      }
      assert Change(r, rows) == Insert(old(rows), p, autoKey);
    }

    /** `update_product`: may move the row to a new key. */
    method UpdateProduct(id: int, p: ProductIn) returns (r: Result<Product, HttpError>)
      requires Valid()
      modifies this
      ensures Valid() && Change(r, rows) == Update(old(rows), id, p)
    {
      if id !in rows {
        return Failure(NotFound);
      }
      var row := rows[id];
      if HasId(p) && p.id.value != id {
        if p.id.value in rows {
          return Failure(NewIdTaken);
        }
        row := row.(id := p.id.value);
      }
      row := row.(name := p.name, description := p.description, price := p.price, quantity := p.quantity);
      rows := (rows - {id})[row.id := row];
      r := Success(row);
    }

    /** `delete_product`. */
    method DeleteProduct(id: int) returns (r: Result<string, HttpError>)
      requires Valid()
      modifies this
      ensures Valid() && Change(r, rows) == Remove(old(rows), id)
    {
      if id !in rows {
        return Failure(NotFound);
      }
      rows := rows - {id};
      r := Success(DeletedMessage);
    }
  }
}
