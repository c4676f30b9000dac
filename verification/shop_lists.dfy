/** The e-commerce dashboard's three list slices (`products`, `orders`,
    `customers`). They share one shape: a page of records, the record shown
    on the detail screen, the fetch status, the pagination figures and the
    filter object the screens edit. The shared reducers are stated once,
    generically; the slice-specific ones follow. */
module ShopLists {
  import opened Wrappers
  import opened Seqs
  import opened ShopApi

  /** The filter object; every value the screens store in it is text. */
  type Filters = map<string, string>

  datatype ListState<T> = ListState(
    items: seq<T>, detail: Option<T>, loading: bool, error: Option<string>,
    total: int, page: int, limit: int, totalPages: int, filters: Filters)

  const ProductFilters: Filters :=
    map["category" := "", "search" := "", "minPrice" := "", "maxPrice" := "", "sort" := "createdAt:desc"]

  const OrderFilters: Filters :=
    map["status" := "", "search" := "", "customer_id" := "", "sort" := "created_at:desc"]

  const CustomerFilters: Filters := map["search" := "", "sort" := "createdAt:desc"]

  /** Each slice's initial state: nothing loaded, page 1 of 1, ten per page. */
  function InitialList<T>(filters: Filters): (r: ListState<T>)
    ensures r.items == [] && r.detail == None && !r.loading && r.error == None
    ensures r.total == 0 && r.page == 1 && r.limit == 10 && r.totalPages == 1 && r.filters == filters
  {
    ListState([], None, false, None, 0, 1, 10, 1, filters)
  }

  /** Every `pending` case. */
  function Pending<T>(st: ListState<T>): (r: ListState<T>)
    ensures r.loading && r.error == None
    ensures r.(loading := st.loading, error := st.error) == st
  {
    st.(loading := true, error := None)
  }

  /** Every `rejected` case: the thunk's error message becomes the error. */
  function Rejected<T>(st: ListState<T>, message: Option<string>): (r: ListState<T>)
    ensures !r.loading && r.error == message
    ensures r.(loading := st.loading, error := st.error) == st
  {
    st.(loading := false, error := message)
  }

  /** `clear…Error`. */
  function ClearError<T>(st: ListState<T>): (r: ListState<T>)
    ensures r.error == None && r.(error := st.error) == st
  {
    st.(error := None)
  }

  /** `setFilters`: the payload's keys overwrite, the others stay, and the
      page goes back to 1. */
  function SetFilters<T>(st: ListState<T>, payload: Filters): (r: ListState<T>)
    ensures r.filters.Keys == st.filters.Keys + payload.Keys
    ensures forall k | k in payload :: r.filters[k] == payload[k]
    ensures forall k | k in st.filters && k !in payload :: r.filters[k] == st.filters[k]
    ensures r.page == 1
    ensures r.(filters := st.filters, page := st.page) == st
  {
    st.(filters := st.filters + payload, page := 1)
  }

  /** Applying the same filter change twice is applying it once. */
  lemma SetFiltersIdempotent<T>(st: ListState<T>, payload: Filters)
    ensures SetFilters(SetFilters(st, payload), payload) == SetFilters(st, payload)
  {
    var once := SetFilters(st, payload);
    var twice := SetFilters(once, payload);
    assert twice.filters == once.filters;
  }

  /** `setPage`: only the page changes. */
  function SetPage<T>(st: ListState<T>, page: int): (r: ListState<T>)
    ensures r.page == page && r.(page := st.page) == st
  {
    st.(page := page)
  }

  /** `setLimit`: the limit changes and the page goes back to 1. */
  function SetLimit<T>(st: ListState<T>, limit: int): (r: ListState<T>)
    ensures r.limit == limit && r.page == 1
    ensures r.(limit := st.limit, page := st.page) == st
  {
    st.(limit := limit, page := 1)
  }

  /** `clearProductDetail` / `clearOrderDetail`. */
  function ClearDetail<T>(st: ListState<T>): (r: ListState<T>)
    ensures r.detail == None && r.(detail := st.detail) == st
  {
    st.(detail := None)
  }

  /** `get….fulfilled` for a list: the page and its figures are copied from
      the payload. */
  function PageFulfilled<T>(st: ListState<T>, p: Page<T>): (r: ListState<T>)
    ensures !r.loading && r.items == p.items && r.total == p.total
    ensures r.page == p.page && r.limit == p.limit && r.totalPages == p.totalPages
    ensures r.detail == st.detail && r.error == st.error && r.filters == st.filters
  {
    st.(loading := false, items := p.items, total := p.total, page := p.page, limit := p.limit, totalPages := p.totalPages)
  }

  /** `get…ById.fulfilled`: the record becomes the detail record. */
  function DetailFulfilled<T>(st: ListState<T>, x: T): (r: ListState<T>)
    ensures !r.loading && r.detail == Some(x)
    ensures r.(loading := st.loading, detail := st.detail) == st
  {
    st.(loading := false, detail := Some(x))
  }

  /** `addProduct.fulfilled`: the new record goes first and the total grows
      by one. */
  function AddFulfilled<T>(st: ListState<T>, x: T): (r: ListState<T>)
    ensures !r.loading && |r.items| == |st.items| + 1 && r.items[0] == x && r.items[1..] == st.items
    ensures r.total == st.total + 1
    ensures r.(loading := st.loading, items := st.items, total := st.total) == st
  {
    st.(loading := false, items := [x] + st.items, total := st.total + 1)
  }

  /** `editProduct.fulfilled` and `changeOrderStatus.fulfilled`: the first
      list entry with the payload's id, and the detail record when it has
      that id, are replaced by the payload; without such entries nothing
      but `loading` changes. */
  function ReplaceFulfilled<T, K(==)>(st: ListState<T>, x: T, key: T -> K): (r: ListState<T>)
    ensures !r.loading && |r.items| == |st.items|
    ensures FindIndex(st.items, y => key(y) == key(x)).None? ==> r.items == st.items
    ensures FindIndex(st.items, y => key(y) == key(x)).Some? ==>
      var i := FindIndex(st.items, y => key(y) == key(x)).value;
      r.items[i] == x && forall k | 0 <= k < |st.items| && k != i :: r.items[k] == st.items[k]
    ensures st.detail.Some? && key(st.detail.value) == key(x) ==> r.detail == Some(x)
    ensures !(st.detail.Some? && key(st.detail.value) == key(x)) ==> r.detail == st.detail
    ensures r.(loading := st.loading, items := st.items, detail := st.detail) == st
  {
    var detail := if st.detail.Some? && key(st.detail.value) == key(x) then Some(x) else st.detail;
    st.(loading := false, items := UpdateFirst(st.items, y => key(y) == key(x), _ => x), detail := detail)
  }

  /** Replacing with the same record twice is replacing it once. */
  lemma ReplaceFulfilledIdempotent<T, K>(st: ListState<T>, x: T, key: T -> K)
    ensures ReplaceFulfilled(ReplaceFulfilled(st, x, key), x, key) == ReplaceFulfilled(st, x, key)
  {
    var r1 := ReplaceFulfilled(st, x, key);
    var p := (y: T) => key(y) == key(x);
    match FindIndex(st.items, p)
    case None =>
    case Some(i) =>
      assert FindIndex(r1.items, p) == Some(i) by {
        assert p(r1.items[i]);
        assert forall j | 0 <= j < i :: r1.items[j] == st.items[j];
      }
      assert r1.items[i := x] == r1.items;
  }

  /** `removeProduct.fulfilled`: every entry with that id leaves the list,
      the total drops by one whether or not any did, and a detail record
      with that id is cleared. */
  function RemoveFulfilled<T(!new), K(==)>(st: ListState<T>, id: K, key: T -> K): (r: ListState<T>)
    ensures !r.loading
    ensures forall y :: y in r.items <==> y in st.items && key(y) != id
    ensures r.items == Filter(st.items, y => key(y) != id)
    ensures r.total == st.total - 1
    ensures st.detail.Some? && key(st.detail.value) == id ==> r.detail == None
    ensures !(st.detail.Some? && key(st.detail.value) == id) ==> r.detail == st.detail
    ensures r.(loading := st.loading, items := st.items, total := st.total, detail := st.detail) == st
  {
    var detail := if st.detail.Some? && key(st.detail.value) == id then None else st.detail;
    st.(loading := false, items := Filter(st.items, y => key(y) != id), total := st.total - 1, detail := detail)
  }

  /** Adding a record whose id is not listed and then removing that id
      restores the list and the total. */
  lemma AddThenRemove<T(!new), K>(st: ListState<T>, x: T, key: T -> K)
    requires forall i | 0 <= i < |st.items| :: key(st.items[i]) != key(x)
    ensures var r := RemoveFulfilled(AddFulfilled(st, x), key(x), key);
      r.items == st.items && r.total == st.total
  {
    var added := AddFulfilled(st, x);
    assert added.items == [x] + st.items;
    assert Filter(added.items, y => key(y) != key(x)) == Filter(st.items, y => key(y) != key(x));
    FilterAll(st.items, y => key(y) != key(x));
  }

  /** The customers slice adds the detail customer's orders. */
  datatype CustomersState = CustomersState(list: ListState<Customer>, customerOrders: seq<Order>)

  function InitialCustomers(): (r: CustomersState)
    ensures r.list == InitialList(CustomerFilters) && r.customerOrders == []
  {
    CustomersState(InitialList(CustomerFilters), [])
  }

  /** `getCustomerOrders.fulfilled`. */
  function CustomerOrdersFulfilled(st: CustomersState, orders: seq<Order>): (r: CustomersState)
    ensures r.customerOrders == orders && !r.list.loading
    ensures r.list.(loading := st.list.loading) == st.list
  {
    CustomersState(st.list.(loading := false), orders)
  }

  /** `clearCustomerDetail`: the customer and their orders, nothing else. */
  function ClearCustomerDetail(st: CustomersState): (r: CustomersState)
    ensures r.list.detail == None && r.customerOrders == []
    ensures r.list.(detail := st.list.detail) == st.list
  {
    CustomersState(st.list.(detail := None), [])
  }

  function ProductId(p: Product): int { p.id }

  function OrderId(o: Order): string { o.id }

  /** `{ page, limit, ...filters }` as the products screen sends it. */
  function ProductQueryOf(st: ListState<Product>): (q: ProductQuery)
    ensures q.page == Some(st.page) && q.limit == Some(st.limit)
    ensures q.category.Some? <==> "category" in st.filters
    ensures q.maxPrice.Some? <==> "maxPrice" in st.filters
  {
    var f := st.filters;
    ProductQuery(Get(f, "category"), Get(f, "search"), Get(f, "minPrice"), Get(f, "maxPrice"), Get(f, "sort"),
                 Some(st.page), Some(st.limit))
  }

  function Get(f: Filters, k: string): (r: Option<string>)
    ensures r.Some? <==> k in f
    ensures r.Some? ==> r.value == f[k]
  {
    if k in f then Some(f[k]) else None
  }

  /** The products screen's first request carries the initial filters, so
      its price bounds are `''`: as written, only products priced 0 come
      back. */
  lemma InitialProductsRequest(p: Product)
    ensures ProductQueryOf(InitialList(ProductFilters)) == BlankProductQuery()
    ensures ProductMatches(p, ProductQueryOf(InitialList(ProductFilters))) <==> p.price == 0.0
  {
    BlankBoundsKeepOnlyFree(p);
  }
}
