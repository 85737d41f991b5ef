/** The table the client shows: the fetched products filtered by the search box and
    sorted by the selected column (App.js, `filteredProducts`). */
module ProductView {
  import opened Wrappers
  import opened JsText

  /** A JavaScript value held in a field that may be non-numeric: absent, a number or a string. */
  datatype Value = Undefined | Num(n: real) | Str(s: string)

  /** `Number(s)` on a string; `None` stands for NaN. */
  type NumberParser = string -> Option<real>

  /** A product as the client receives it from `GET /products`. */
  datatype Product = Product(id: int, name: string, description: string, price: Value, quantity: Value)

  datatype SortField = Id | Name | Description | Price | Quantity
  datatype Direction = Asc | Desc

  /** `Number(v)`, with `None` for NaN. */
  function ToNumber(v: Value, num: NumberParser): (r: Option<real>)
    ensures v.Num? ==> r == Some(v.n)
    ensures v.Undefined? ==> r == None
  {
    match v
    case Undefined => None
    case Num(n) => Some(n)
    case Str(s) => num(s)
  }

  /** `Number(v) || 0`: NaN becomes 0. */
  function NumericValue(v: Value, num: NumberParser): real {
    ToNumber(v, num).GetOr(0.0)
  }

  /** The columns the comparator coerces to numbers. */
  predicate IsNumeric(field: SortField) {
    field == Id || field == Price || field == Quantity
  }

  /** `a[sortField]` for the numeric columns. */
  function NumericField(p: Product, field: SortField): Value
    requires IsNumeric(field)
  {
    match field
    case Id => Num(p.id as real)
    case Price => p.price
    case Quantity => p.quantity
  }

  /** `String(a[sortField] || '')` for the text columns; both hold strings, so this is the field itself. */
  function TextField(p: Product, field: SortField): string
    requires !IsNumeric(field)
  {
    if field == Name then p.name else p.description
  }

  /** The coerced value the comparator reads from a product. */
  function NumericKey(p: Product, field: SortField, num: NumberParser): real
    requires IsNumeric(field)
  {
    NumericValue(NumericField(p, field), num)
  }

  function TextKey(p: Product, field: SortField): string
    requires !IsNumeric(field)
  {
    Lower(TextField(p, field))
  }

  /** The comparator handed to `Array.prototype.sort`: negative when `a` goes first. */
  function Compare(a: Product, b: Product, field: SortField, dir: Direction, num: NumberParser): real {
    if IsNumeric(field) then
      var x, y := NumericKey(a, field, num), NumericKey(b, field, num);
      if dir == Asc then x - y else y - x
    else
      var s, t := TextKey(a, field), TextKey(b, field);
      if dir == Asc then CompareStrings(s, t) as real else CompareStrings(t, s) as real
  }

  predicate InOrder(a: Product, b: Product, field: SortField, dir: Direction, num: NumberParser) {
    Compare(a, b, field, dir, num) <= 0.0
  }

  /** `desc` is the negation of `asc` on every pair, numeric or text. */
  lemma DescNegatesAsc(a: Product, b: Product, field: SortField, num: NumberParser)
    ensures Compare(a, b, field, Desc, num) == -Compare(a, b, field, Asc, num)
  {
    if !IsNumeric(field) {
      CompareStringsAntisymmetric(TextKey(a, field), TextKey(b, field));
    }
  }

  /** The comparator is consistent: every pair can be ordered one way or the other ... */
  lemma InOrderTotal(a: Product, b: Product, field: SortField, dir: Direction, num: NumberParser)
    ensures InOrder(a, b, field, dir, num) || InOrder(b, a, field, dir, num)
  {
    if !IsNumeric(field) {
      CompareStringsAntisymmetric(TextKey(a, field), TextKey(b, field));
    }
  }

  /** ... and the order it defines is transitive. */
  lemma InOrderTransitive(a: Product, b: Product, c: Product, field: SortField, dir: Direction, num: NumberParser)
    requires InOrder(a, b, field, dir, num) && InOrder(b, c, field, dir, num)
    ensures InOrder(a, c, field, dir, num)
  {
    if !IsNumeric(field) {
      var s, t, u := TextKey(a, field), TextKey(b, field), TextKey(c, field);
      if dir == Asc {
        CompareStringsTransitive(s, t, u);
      } else {
        CompareStringsTransitive(u, t, s);
      }
    }
  }

  /** `le` is what `Array.prototype.sort` needs of a comparator: total and transitive. */
  ghost predicate TotalPreorder<T(!new)>(le: (T, T) -> bool) {
    && (forall a, b :: le(a, b) || le(b, a))
    && (forall a, b, c :: le(a, b) && le(b, c) ==> le(a, c))
  }

  ghost predicate SortedBy<T>(s: seq<T>, le: (T, T) -> bool) {
    forall i, j :: 0 <= i < j < |s| ==> le(s[i], s[j])
  }

  /** Puts `x` before the first element it is in order with. */
  function Insert<T>(x: T, s: seq<T>, le: (T, T) -> bool): (r: seq<T>)
    ensures multiset(r) == multiset(s) + multiset{x}
  {
    if s == [] then [x]
    else if le(x, s[0]) then [x] + s
    else
      assert s == [s[0]] + s[1..];
      [s[0]] + Insert(x, s[1..], le)
  }

  lemma {:induction false} InsertSorted<T(!new)>(x: T, s: seq<T>, le: (T, T) -> bool)
    requires TotalPreorder(le) && SortedBy(s, le)
    ensures SortedBy(Insert(x, s, le), le)
  {
    if s == [] {
    } else if le(x, s[0]) {
      var r := Insert(x, s, le);
      forall j | 1 <= j < |r|
        ensures le(r[0], r[j])
      {
        if j > 1 {
          assert le(s[0], s[j - 1]);
        }
      }
    } else {
      var t := Insert(x, s[1..], le);
      InsertSorted(x, s[1..], le);
      forall j | 0 <= j < |t|
        ensures le(s[0], t[j])
      {
        assert t[j] in multiset(t);
        if t[j] != x {
          var k :| 0 <= k < |s[1..]| && s[1..][k] == t[j];
          assert s[k + 1] == t[j];
        }
      }
    }
  }

  /** Insertion sort: the result is a permutation of the input. */
  function SortBy<T>(s: seq<T>, le: (T, T) -> bool): (r: seq<T>)
    ensures multiset(r) == multiset(s)
  {
    if s == [] then []
    else
      assert s == [s[0]] + s[1..];
      Insert(s[0], SortBy(s[1..], le), le)
  }

  /** For a total preorder the result is sorted. */
  lemma {:induction false} SortBySorted<T(!new)>(s: seq<T>, le: (T, T) -> bool)
    requires TotalPreorder(le)
    ensures SortedBy(SortBy(s, le), le)
  {
    if s != [] {
      SortBySorted(s[1..], le);
      InsertSorted(s[0], SortBy(s[1..], le), le);
    }
  }

  /** The comparator's order as a relation. */
  function OrderOf(field: SortField, dir: Direction, num: NumberParser): (Product, Product) -> bool {
    (a: Product, b: Product) => InOrder(a, b, field, dir, num)
  }

  lemma OrderIsTotalPreorder(field: SortField, dir: Direction, num: NumberParser)
    ensures TotalPreorder(OrderOf(field, dir, num))
  {
    var le := OrderOf(field, dir, num);
    forall a, b
      ensures le(a, b) || le(b, a)
    {
      InOrderTotal(a, b, field, dir, num);
    }
    forall a, b, c | le(a, b) && le(b, c)
      ensures le(a, c)
    {
      InOrderTransitive(a, b, c, field, dir, num);
    }
  }

  /** `filtered.sort(comparator)`: a permutation of its input. */
  function SortProducts(s: seq<Product>, field: SortField, dir: Direction, num: NumberParser): (r: seq<Product>)
    ensures multiset(r) == multiset(s)
  {
    SortBy(s, OrderOf(field, dir, num))
  }

  ghost predicate Sorted(s: seq<Product>, field: SortField, dir: Direction, num: NumberParser) {
    forall i, j :: 0 <= i < j < |s| ==> InOrder(s[i], s[j], field, dir, num)
  }

  /** The sorted result is in comparator order. */
  lemma SortProductsSorted(s: seq<Product>, field: SortField, dir: Direction, num: NumberParser)
    ensures Sorted(SortProducts(s, field, dir, num), field, dir, num)
  {
    OrderIsTotalPreorder(field, dir, num);
    SortBySorted(s, OrderOf(field, dir, num));
  }

  lemma TailMultiset<T>(p: seq<T>)
    requires p != []
    ensures multiset(p[1..]) == multiset(p) - multiset{p[0]}
  {
    assert p == [p[0]] + p[1..];
  }

  /** In a sorted sequence the first element is in order with every element. */
  lemma FirstInOrder<T>(p: seq<T>, le: (T, T) -> bool, y: T)
    requires SortedBy(p, le) && y in p && y != p[0]
    ensures le(p[0], y)
  {
    var i :| 0 <= i < |p| && p[i] == y;
  }

  /** Two sorted arrangements of the same elements agree when the order ties no two distinct elements. */
  lemma {:induction false} SortedUnique<T(!new)>(p: seq<T>, q: seq<T>, le: (T, T) -> bool)
    requires multiset(p) == multiset(q)
    requires SortedBy(p, le) && SortedBy(q, le)
    requires forall a, b :: a in p && b in p && le(a, b) && le(b, a) ==> a == b
    ensures p == q
  {
    if p != [] && q != [] {
      var x, y := p[0], q[0];
      assert y in multiset(p) && x in multiset(q);
      if x != y {
        FirstInOrder(p, le, y);
        FirstInOrder(q, le, x);
      }
      TailMultiset(p);
      TailMultiset(q);
      forall a, b | a in p[1..] && b in p[1..] && le(a, b) && le(b, a)
        ensures a == b
      {
        assert a in p && b in p;
      }
      SortedUnique(p[1..], q[1..], le);
      assert p == [x] + p[1..] && q == [y] + q[1..];
    }
  }

  function Reverse<T>(s: seq<T>): (r: seq<T>)
    ensures |r| == |s|
    ensures forall k :: 0 <= k < |s| ==> r[k] == s[|s| - 1 - k]
  {
    if s == [] then [] else Reverse(s[1..]) + [s[0]]
  }

  lemma {:induction false} ReverseMultiset<T>(s: seq<T>)
    ensures multiset(Reverse(s)) == multiset(s)
  {
    if s != [] {
      ReverseMultiset(s[1..]);
      assert s == [s[0]] + s[1..];
    }
  }

  /** `desc` compares `a` with `b` as `asc` compares `b` with `a`. */
  lemma DescSwapsAsc(a: Product, b: Product, field: SortField, num: NumberParser)
    ensures Compare(a, b, field, Desc, num) == Compare(b, a, field, Asc, num)
  {
  }

  /** No two distinct products of `s` compare equal on `field`. */
  ghost predicate DistinctKeys(s: seq<Product>, field: SortField, num: NumberParser) {
    forall a, b :: a in s && b in s && a != b ==> Compare(a, b, field, Asc, num) != 0.0
  }

  /** When no two products tie on the column, sorting `desc` gives exactly the reverse of sorting `asc`. */
  lemma DescIsReversedAsc(s: seq<Product>, field: SortField, num: NumberParser)
    requires DistinctKeys(s, field, num)
    ensures SortProducts(s, field, Desc, num) == Reverse(SortProducts(s, field, Asc, num))
  {
    var up := SortProducts(s, field, Asc, num);
    var down := SortProducts(s, field, Desc, num);
    SortProductsSorted(s, field, Asc, num);
    SortProductsSorted(s, field, Desc, num);
    ReverseMultiset(up);
    ReversedSortedIsDesc(up, field, num);
    DistinctKeysNoTies(s, down, field, num);
    SortedUnique(down, Reverse(up), OrderOf(field, Desc, num));
  }

  lemma DistinctKeysNoTies(s: seq<Product>, d: seq<Product>, field: SortField, num: NumberParser)
    requires DistinctKeys(s, field, num) && multiset(d) == multiset(s)
    ensures var le := OrderOf(field, Desc, num);
      forall a, b :: a in d && b in d && le(a, b) && le(b, a) ==> a == b
  {
    forall a, b | a in d && b in d && InOrder(a, b, field, Desc, num) && InOrder(b, a, field, Desc, num)
      ensures a == b
    {
      assert a in multiset(d) && b in multiset(d);
      DescNegatesAsc(a, b, field, num);
    }
  }

  lemma ReversedSortedIsDesc(up: seq<Product>, field: SortField, num: NumberParser)
    requires Sorted(up, field, Asc, num)
    ensures SortedBy(Reverse(up), OrderOf(field, Desc, num))
  {
    var back := Reverse(up);
    forall i, j | 0 <= i < j < |back|
      ensures InOrder(back[i], back[j], field, Desc, num)
    {
      var n := |up|;
      assert InOrder(up[n - 1 - j], up[n - 1 - i], field, Asc, num);
      DescSwapsAsc(back[i], back[j], field, num);
    }
  }

  /** The search text as the filter uses it: `filter.trim().toLowerCase()`. */
  function Query(filter: string): string {
    Lower(Trim(filter))
  }

  /** A product passes when the query occurs in `String(p.id)`, the lowercased name or the lowercased description. */
  predicate Matches(p: Product, q: string) {
    || Includes(IntToString(p.id), q)
    || Includes(Lower(p.name), q)
    || Includes(Lower(p.description), q)
  }

  /** Lowering the trimmed search text never stops it from matching an id: `String(id)` has no
      upper-case letter, so any text that occurs in it is already lower case. */
  lemma IdMatchSurvivesLowering(id: int, filter: string)
    requires Includes(IntToString(id), Trim(filter))
    ensures Includes(IntToString(id), Query(filter))
  {
    IncludesNoUpper(IntToString(id), Trim(filter));
    LowerFixesLowercase(Trim(filter));
  }

  /** `products.filter(...)`: keeps the matching products in their order. */
  function Select(ps: seq<Product>, q: string): (r: seq<Product>)
    ensures |r| <= |ps|
  {
    if ps == [] then []
    else (if Matches(ps[0], q) then [ps[0]] else []) + Select(ps[1..], q)
  }

  /** `Select` keeps every matching product as often as it occurs, and nothing else. */
  lemma {:induction false} SelectCount(ps: seq<Product>, q: string, x: Product)
    ensures multiset(Select(ps, q))[x] == if Matches(x, q) then multiset(ps)[x] else 0
  {
    if ps != [] {
      SelectCount(ps[1..], q, x);
      assert ps == [ps[0]] + ps[1..];
    }
  }

  /** The filter step: an empty query (after trimming) keeps every product. */
  function Filtered(ps: seq<Product>, filter: string): seq<Product> {
    var q := Query(filter);
    if q != "" then Select(ps, q) else ps
  }

  /** `filteredProducts`: filter, then sort. */
  function View(ps: seq<Product>, filter: string, field: SortField, dir: Direction, num: NumberParser): seq<Product> {
    SortProducts(Filtered(ps, filter), field, dir, num)
  }

  /** The condition a product must meet to be shown. */
  predicate Shown(p: Product, filter: string) {
    Query(filter) == "" || Matches(p, Query(filter))
  }

  /** Filter soundness and completeness, counted with multiplicity: the view holds each shown product
      exactly as often as the collection does, and no other product. */
  lemma ViewCount(ps: seq<Product>, filter: string, field: SortField, dir: Direction, num: NumberParser, x: Product)
    ensures multiset(View(ps, filter, field, dir, num))[x] == if Shown(x, filter) then multiset(ps)[x] else 0
  {
    if Query(filter) != "" {
      SelectCount(ps, Query(filter), x);
    }
  }

  /** A product is in the view iff it is in the collection and matches the query. */
  lemma ViewMembership(ps: seq<Product>, filter: string, field: SortField, dir: Direction, num: NumberParser, x: Product)
    ensures x in View(ps, filter, field, dir, num) <==> x in ps && Shown(x, filter)
  {
    ViewCount(ps, filter, field, dir, num, x);
    assert x in View(ps, filter, field, dir, num) <==> x in multiset(View(ps, filter, field, dir, num));
  }

  /** A query that is empty or white space only shows the whole collection, reordered. */
  lemma BlankFilterShowsAll(ps: seq<Product>, filter: string, field: SortField, dir: Direction, num: NumberParser)
    requires AllSpace(filter)
    ensures Filtered(ps, filter) == ps
    ensures multiset(View(ps, filter, field, dir, num)) == multiset(ps)
  {
    TrimEmptyIff(filter);
  }

  /** On `id`, `price` and `quantity` the view is non-decreasing in the coerced value for `asc`
      and non-increasing for `desc`; a non-numeric or absent value counts as 0. */
  lemma ViewNumericOrder(ps: seq<Product>, filter: string, field: SortField, dir: Direction, num: NumberParser, i: int, j: int)
    requires IsNumeric(field)
    requires 0 <= i < j < |View(ps, filter, field, dir, num)|
    ensures var v := View(ps, filter, field, dir, num);
      if dir == Asc then NumericKey(v[i], field, num) <= NumericKey(v[j], field, num)
      else NumericKey(v[i], field, num) >= NumericKey(v[j], field, num)
  {
    SortProductsSorted(Filtered(ps, filter), field, dir, num);
  }

  /** On the text columns the view is in lowercased string order, reversed for `desc`. */
  lemma ViewTextOrder(ps: seq<Product>, filter: string, field: SortField, dir: Direction, num: NumberParser, i: int, j: int)
    requires !IsNumeric(field)
    requires 0 <= i < j < |View(ps, filter, field, dir, num)|
    ensures var v := View(ps, filter, field, dir, num);
      if dir == Asc then CompareStrings(TextKey(v[i], field), TextKey(v[j], field)) <= 0
      else CompareStrings(TextKey(v[i], field), TextKey(v[j], field)) >= 0
  {
    var v := View(ps, filter, field, dir, num);
    SortProductsSorted(Filtered(ps, filter), field, dir, num);
    assert InOrder(v[i], v[j], field, dir, num);
    CompareStringsAntisymmetric(TextKey(v[i], field), TextKey(v[j], field));
  }

  /** Sorting `[{price: 9.99}, {price: 1}, {price: "abc"}]` by price ascending puts "abc" (read as 0) first. */
  lemma PriceSortExample(num: NumberParser)
    requires num("abc") == None
    ensures var a := Product(1, "a", "x", Num(9.99), Num(1.0));
      var b := Product(2, "b", "y", Num(1.0), Num(1.0));
      var c := Product(3, "c", "z", Str("abc"), Num(1.0));
      SortProducts([a, b, c], Price, Asc, num) == [c, b, a]
  {
    var a := Product(1, "a", "x", Num(9.99), Num(1.0));
    var b := Product(2, "b", "y", Num(1.0), Num(1.0));
    var c := Product(3, "c", "z", Str("abc"), Num(1.0));
    var le := OrderOf(Price, Asc, num);
    assert !le(b, c) && !le(a, c) && !le(a, b) by {
      assert NumericKey(a, Price, num) == 9.99;
      assert NumericKey(b, Price, num) == 1.0;
      assert NumericKey(c, Price, num) == 0.0;
    }
    assert SortBy([b, c], le) == [c, b] by {
      assert [b, c][1..] == [c];
      assert SortBy([c], le) == [c];
    }
    assert Insert(a, [c, b], le) == [c, b, a] by {
      assert Insert(a, [b], le) == [b, a];
    }
    assert [a, b, c][1..] == [b, c];
  }
}
