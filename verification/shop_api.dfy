/** The e-commerce dashboard's mock back end: in-memory product, order and
    customer tables, the list endpoints with their filters, sorting and
    pagination, the single-record reads and writes, login, and the
    deterministic part of the dashboard statistics. Network delay, the clock
    and `Math.random` are parameters. */
module ShopApi {
  import opened Wrappers
  import opened Seqs
  import opened Text
  import opened Sorting

  /** A product. The price is a real number of dollars (the mock data has
      whole cents). The rating is kept in tenths of a star: the mock data
      writes it with `toFixed(1)`, so `"4.3"` is 43, and the difference of two
      such ratings, which is what the dashboard sorts by, is exact in tenths. */
  datatype Product = Product(
    id: int, name: string, description: string, price: real, category: string,
    inventory: int, rating: int, image: string, createdAt: int, updatedAt: int)

  datatype Order = Order(
    id: string, customerId: int, customerName: string, status: string,
    total: real, createdAt: int, updatedAt: int)

  datatype Customer = Customer(
    id: int, name: string, email: string, phone: string,
    totalOrders: int, totalSpent: int, createdAt: int, lastPurchase: int)

  /** The three tables the endpoints read and write. */
  datatype Db = Db(products: seq<Product>, orders: seq<Order>, customers: seq<Customer>)

  datatype User = User(id: int, name: string, email: string, password: string, role: string, avatar: string)

  /** A user as the endpoints return it: everything but the password. */
  datatype PublicUser = PublicUser(id: int, name: string, email: string, role: string, avatar: string)

  datatype Session = Session(user: PublicUser, token: string)

  /** The two accounts the mock back end knows. */
  function Users(): (r: seq<User>)
    ensures |r| == 2
  {
    [ User(1, "Admin User", "admin@example.com", "admin123", "admin", "/static/images/avatars/avatar_1.jpg"),
      User(2, "Manager User", "manager@example.com", "manager123", "manager", "/static/images/avatars/avatar_2.jpg") ]
  }

  function Public(u: User): (r: PublicUser)
    ensures r.id == u.id && r.email == u.email
  {
    PublicUser(u.id, u.name, u.email, u.role, u.avatar)
  }

  // ---------------------------------------------------------------------
  // Pagination, shared by the three list endpoints.

  /** What a list endpoint returns. */
  datatype Page<T> = Page(items: seq<T>, total: nat, page: int, limit: int, totalPages: int)

  /** `n || d` for a numeric parameter: a missing value or 0 gives `d`. */
  function NumberOr(n: Option<int>, d: int): (r: int)
    ensures n.None? || n == Some(0) ==> r == d
    ensures n.Some? && n.value != 0 ==> r == n.value
  {
    match n
    case Some(v) => if v != 0 then v else d
    case None => d
  }

  /** `Math.ceil(a / b)` for a count `a` and a non-zero divisor. */
  function CeilDiv(a: nat, b: int): (q: int)
    requires b != 0
    ensures b > 0 ==> q >= 0 && (q - 1) * b < a <= q * b
    ensures b < 0 ==> q <= 0 && q * b <= a < (q - 1) * b
  {
    if b > 0 then (a + b - 1) / b else -(a / -b)
  }

  function Clip(n: int, len: nat): (r: nat)
    ensures r <= len
    ensures 0 <= n <= len ==> r == n
  {
    if n < 0 then 0 else if n > len then len else n
  }

  /** `s.slice((page - 1) * limit, page * limit)`. */
  function PageItems<T>(s: seq<T>, page: int, limit: int): seq<T> {
    JsSlice(s, (page - 1) * limit, page * limit)
  }

  /** For a page and limit of at least 1, the page is the clipped window
      `[(page - 1) * limit, page * limit)`. */
  lemma PageItemsClip<T>(s: seq<T>, page: int, limit: int, start: int)
    requires page >= 1 && limit >= 1 && start == (page - 1) * limit
    ensures start >= 0 && start + limit == page * limit
    ensures PageItems(s, page, limit) == s[Clip(start, |s|)..Clip(start + limit, |s|)]
  {
    assert start + limit == page * limit;
    assert start >= 0 by {
      assert page - 1 >= 0;
    }
  }

  /** The pagination step of every list endpoint: page and limit default to
      1 and 10, the page is cut out of the full list, and the total and page
      count describe the full list. A limit of 0 also falls back to 10, so
      the page count is always defined. */
  function Paginate<T>(s: seq<T>, page: Option<int>, limit: Option<int>): (r: Page<T>)
    ensures r.total == |s| && r.page == NumberOr(page, 1) && r.limit == NumberOr(limit, 10)
    ensures r.limit > 0 ==> r.totalPages >= 0 && (r.totalPages - 1) * r.limit < |s| <= r.totalPages * r.limit
    ensures r.page >= 1 && r.limit >= 1 ==> |r.items| <= r.limit
  {
    var p := NumberOr(page, 1);
    var l := NumberOr(limit, 10);
    var items := PageItems(s, p, l);
    assert p >= 1 && l >= 1 ==> |items| <= l by {
      if p >= 1 && l >= 1 {
        PageItemsWindow(s, p, l, (p - 1) * l);
      }
    }
    Page(items, |s|, p, l, CeilDiv(|s|, l))
  }

  /** The items of page `p` are the consecutive elements from index
      `(p - 1) * limit` on. */
  lemma PaginateWindow<T>(s: seq<T>, page: Option<int>, limit: Option<int>)
    ensures var r := Paginate(s, page, limit);
      r.page >= 1 && r.limit >= 1 ==> var start := (r.page - 1) * r.limit;
      forall i | 0 <= i < |r.items| :: 0 <= start + i < |s| && r.items[i] == s[start + i]
  {
    var p, l := NumberOr(page, 1), NumberOr(limit, 10);
    if p >= 1 && l >= 1 {
      PageItemsWindow(s, p, l, (p - 1) * l);
    }
  }

  /** A page holds at most `limit` items, taken consecutively from index
      `(page - 1) * limit`. */
  lemma PageItemsWindow<T>(s: seq<T>, page: int, limit: int, start: int)
    requires page >= 1 && limit >= 1 && start == (page - 1) * limit
    ensures var r := PageItems(s, page, limit);
      |r| <= limit && forall i | 0 <= i < |r| :: 0 <= start + i < |s| && r[i] == s[start + i]
  {
    PageItemsClip(s, page, limit, start);
    if start <= |s| {
      assert Clip(start, |s|) == start;
    }
  }

  /** The pages of a list, read one after another. */
  function Flatten<T>(pages: seq<seq<T>>): seq<T> {
    if |pages| == 0 then [] else Flatten(pages[..|pages| - 1]) + pages[|pages| - 1]
  }

  /** True when `pages` holds pages `1..|pages|` of `s` with limit `limit`. */
  ghost predicate PagesOf<T>(pages: seq<seq<T>>, s: seq<T>, limit: int) {
    forall k | 0 <= k < |pages| :: pages[k] == Paginate(s, Some(k + 1), Some(limit)).items
  }

  /** Pages `1..n` read one after another are the first `n * limit`
      elements of the list. */
  lemma {:induction false} PageRunPrefix<T>(pages: seq<seq<T>>, s: seq<T>, limit: int)
    requires limit >= 1 && PagesOf(pages, s, limit)
    ensures Flatten(pages) == s[..Clip(|pages| * limit, |s|)]
  {
    var n := |pages|;
    if n > 0 {
      var start := (n - 1) * limit;
      PageItemsClip(s, n, limit, start);
      var a, b := Clip(start, |s|), Clip(start + limit, |s|);
      assert a <= b;
      assert pages[n - 1] == s[a..b];
      PageRunPrefix(pages[..n - 1], s, limit);
      assert s[..a] + s[a..b] == s[..b];
    }
  }

  /** Reading pages 1 to `totalPages` one after another yields the whole
      list, each element exactly once and in order. */
  lemma PagesCoverList<T>(pages: seq<seq<T>>, s: seq<T>, limit: int)
    requires limit >= 1 && PagesOf(pages, s, limit)
    requires |pages| == Paginate(s, None, Some(limit)).totalPages
    ensures Flatten(pages) == s
  {
    PageRunPrefix(pages, s, limit);
    assert Clip(|pages| * limit, |s|) == |s|;
  }

  // ---------------------------------------------------------------------
  // Sorting: `params.sort` is `field:order`.

  /** The field and the direction (`true` for `'desc'`) `params.sort` names,
      or `None` when it is missing or empty. */
  function SortSpec(sort: Option<string>): (r: Option<(string, bool)>)
    ensures r.Some? <==> Truthy(sort)
  {
    if !Truthy(sort) then None
    else
      var parts := Split(sort.value, ':');
      Some((parts[0], |parts| > 1 && parts[1] == "desc"))
  }

  /** A sort value built as `field + ':' + order` names that field and
      direction. */
  lemma SortSpecOfJoin(field: string, order: string)
    requires ':' !in field && ':' !in order && |field| > 0
    ensures SortSpec(Some(field + ":" + order)) == Some((field, order == "desc"))
  {
    assert Join([field, order], ':') == field + ":" + order;
    SplitJoin([field, order], ':');
  }

  /** The list sorted by the named field: `rank(field, x)` places `x` in the
      field's order (numeric for numbers, string order for text and ISO
      dates). */
  function SortWith<T>(s: seq<T>, spec: Option<(string, bool)>, rank: (string, T) -> int): (r: seq<T>)
    ensures multiset(r) == multiset(s) && |r| == |s|
    ensures spec.None? ==> r == s
    ensures spec.Some? && !spec.value.1 ==>
      forall i, j | 0 <= i < j < |r| :: rank(spec.value.0, r[i]) <= rank(spec.value.0, r[j])
    ensures spec.Some? && spec.value.1 ==>
      forall i, j | 0 <= i < j < |r| :: rank(spec.value.0, r[i]) >= rank(spec.value.0, r[j])
  {
    match spec
    case None => s
    case Some((field, descending)) =>
      var key := (x: T) => rank(field, x);
      DescendingOrder(s, key);
      SortByKey(s, Directed(key, !descending))
  }

  // ---------------------------------------------------------------------
  // Products.

  datatype ProductQuery = ProductQuery(
    category: Option<string>, search: Option<string>, minPrice: Option<string>, maxPrice: Option<string>,
    sort: Option<string>, page: Option<int>, limit: Option<int>)

  /** `price >= bound` with the bound text converted to a number (`"9.99"`
      and `"-5"` are numbers too); `NaN` compares false. */
  predicate AtLeast(price: real, bound: string) {
    var n := ToNumber(bound); n.Some? && price >= n.value
  }

  predicate AtMost(price: real, bound: string) {
    var n := ToNumber(bound); n.Some? && price <= n.value
  }

  predicate InCategory(p: Product, category: Option<string>) {
    category.Some? && p.category == category.value
  }

  predicate ProductSearchHit(p: Product, search: Option<string>) {
    search.Some? && (ContainsIgnoreCase(p.name, search.value) || ContainsIgnoreCase(p.description, search.value))
  }

  predicate MinPriceOk(p: Product, bound: Option<string>) {
    bound.Some? && AtLeast(p.price, bound.value)
  }

  predicate MaxPriceOk(p: Product, bound: Option<string>) {
    bound.Some? && AtMost(p.price, bound.value)
  }

  /** The four product filters: category when non-empty, a case-insensitive
      search on name or description when non-empty, and each price bound
      whenever the key is present, even as `''`. */
  predicate ProductMatches(p: Product, q: ProductQuery) {
    && (Truthy(q.category) ==> InCategory(p, q.category))
    && (Truthy(q.search) ==> ProductSearchHit(p, q.search))
    && (q.minPrice.Some? ==> MinPriceOk(p, q.minPrice))
    && (q.maxPrice.Some? ==> MaxPriceOk(p, q.maxPrice))
  }

  /** The filter stages of `fetchProducts`, one after another. */
  function FilterProducts(ps: seq<Product>, q: ProductQuery): (r: seq<Product>)
    ensures r == Filter(ps, p => ProductMatches(p, q))
    ensures forall p :: p in r <==> p in ps && ProductMatches(p, q)
  {
    ProductStages(ps, q);
    ProductStagesOf(ps, q)
  }

  function ProductStagesOf(ps: seq<Product>, q: ProductQuery): seq<Product> {
    var a := FilterIf(ps, Truthy(q.category), p => InCategory(p, q.category));
    var b := FilterIf(a, Truthy(q.search), p => ProductSearchHit(p, q.search));
    var c := FilterIf(b, q.minPrice.Some?, p => MinPriceOk(p, q.minPrice));
    FilterIf(c, q.maxPrice.Some?, p => MaxPriceOk(p, q.maxPrice))
  }

  lemma ProductStages(ps: seq<Product>, q: ProductQuery)
    ensures ProductStagesOf(ps, q) == Filter(ps, p => ProductMatches(p, q))
  {
    var w1 := (p: Product) => !Truthy(q.category) || InCategory(p, q.category);
    var w2 := (p: Product) => !Truthy(q.search) || ProductSearchHit(p, q.search);
    var w3 := (p: Product) => !q.minPrice.Some? || MinPriceOk(p, q.minPrice);
    var w4 := (p: Product) => !q.maxPrice.Some? || MaxPriceOk(p, q.maxPrice);
    var a := FilterIf(ps, Truthy(q.category), p => InCategory(p, q.category));
    var b := FilterIf(a, Truthy(q.search), p => ProductSearchHit(p, q.search));
    var c := FilterIf(b, q.minPrice.Some?, p => MinPriceOk(p, q.minPrice));
    FilterIfAs(ps, Truthy(q.category), p => InCategory(p, q.category), w1);
    FilterIfAs(a, Truthy(q.search), p => ProductSearchHit(p, q.search), w2);
    FilterIfAs(b, q.minPrice.Some?, p => MinPriceOk(p, q.minPrice), w3);
    FilterIfAs(c, q.maxPrice.Some?, p => MaxPriceOk(p, q.maxPrice), w4);
    FourStages(ps, w1, w2, w3, w4, p => ProductMatches(p, q));
  }

  /** Four filters in a row keep what their conjunction keeps. */
  lemma FourStages<T(!new)>(s: seq<T>, w1: T -> bool, w2: T -> bool, w3: T -> bool, w4: T -> bool, all: T -> bool)
    requires forall x :: all(x) == (w1(x) && w2(x) && w3(x) && w4(x))
    ensures Filter(Filter(Filter(Filter(s, w1), w2), w3), w4) == Filter(s, all)
  {
    FilterFilter(s, w1, w2);
    var w12 := x => w1(x) && w2(x);
    FilterFilter(s, w12, w3);
    var w123 := x => w12(x) && w3(x);
    FilterFilter(s, w123, w4);
    FilterExt(s, x => w123(x) && w4(x), all);
  }

  /** `fetchProducts`: filter, sort, then paginate. */
  function FetchProducts(db: Db, q: ProductQuery, rank: (string, Product) -> int): (r: Page<Product>)
    ensures r.total == Count(db.products, p => ProductMatches(p, q))
    ensures forall i | 0 <= i < |r.items| :: r.items[i] in db.products && ProductMatches(r.items[i], q)
    ensures r.page == NumberOr(q.page, 1) && r.limit == NumberOr(q.limit, 10)
    ensures SortSpec(q.sort).Some? && !SortSpec(q.sort).value.1 ==> var field := SortSpec(q.sort).value.0;
      forall i, j | 0 <= i < j < |r.items| :: rank(field, r.items[i]) <= rank(field, r.items[j])
    ensures SortSpec(q.sort).Some? && SortSpec(q.sort).value.1 ==> var field := SortSpec(q.sort).value.0;
      forall i, j | 0 <= i < j < |r.items| :: rank(field, r.items[i]) >= rank(field, r.items[j])
  {
    SortAndPage(FilterProducts(db.products, q), q.sort, rank, q.page, q.limit)
  }

  /** The common tail of every list endpoint: sort by the `sort` parameter,
      then cut out the requested page. The page is a window of consecutive
      elements of the sorted list, so it is itself in the requested order. */
  function SortAndPage<T>(filtered: seq<T>, sort: Option<string>, rank: (string, T) -> int,
                          page: Option<int>, limit: Option<int>): (r: Page<T>)
    ensures r.total == |filtered|
    ensures forall i | 0 <= i < |r.items| :: r.items[i] in filtered
    ensures r.page == NumberOr(page, 1) && r.limit == NumberOr(limit, 10)
    ensures r.page >= 1 && r.limit >= 1 ==>
      var sorted, start := SortWith(filtered, SortSpec(sort), rank), (r.page - 1) * r.limit;
      0 <= start && r.items == (if start < |sorted| then sorted[start..Clip(start + r.limit, |sorted|)] else [])
    ensures SortSpec(sort).Some? && !SortSpec(sort).value.1 ==> var field := SortSpec(sort).value.0;
      forall i, j | 0 <= i < j < |r.items| :: rank(field, r.items[i]) <= rank(field, r.items[j])
    ensures SortSpec(sort).Some? && SortSpec(sort).value.1 ==> var field := SortSpec(sort).value.0;
      forall i, j | 0 <= i < j < |r.items| :: rank(field, r.items[i]) >= rank(field, r.items[j])
  {
    var sorted := SortWith(filtered, SortSpec(sort), rank);
    SortedPageMembers(filtered, sorted, page, limit);
    SortedPageWindow(filtered, sort, rank, page, limit);
    SortedPageOrder(filtered, sort, rank, page, limit);
    Paginate(sorted, page, limit)
  }

  lemma SortedPageWindow<T>(filtered: seq<T>, sort: Option<string>, rank: (string, T) -> int,
                            page: Option<int>, limit: Option<int>)
    ensures var r := Paginate(SortWith(filtered, SortSpec(sort), rank), page, limit);
      r.page >= 1 && r.limit >= 1 ==>
      var sorted, start := SortWith(filtered, SortSpec(sort), rank), (r.page - 1) * r.limit;
      0 <= start && r.items == (if start < |sorted| then sorted[start..Clip(start + r.limit, |sorted|)] else [])
  {
    PaginateSlice(SortWith(filtered, SortSpec(sort), rank), page, limit);
  }

  /** For a page and limit of at least 1 the page is the slice of the list
      that starts at index `(page - 1) * limit`. */
  lemma PaginateSlice<T>(s: seq<T>, page: Option<int>, limit: Option<int>)
    ensures var r := Paginate(s, page, limit);
      r.page >= 1 && r.limit >= 1 ==> var start := (r.page - 1) * r.limit;
      0 <= start && r.items == (if start < |s| then s[start..Clip(start + r.limit, |s|)] else [])
  {
    var r := Paginate(s, page, limit);
    if r.page >= 1 && r.limit >= 1 {
      PageItemsClip(s, r.page, r.limit, (r.page - 1) * r.limit);
    }
  }

  lemma SortedPageMembers<T>(filtered: seq<T>, sorted: seq<T>, page: Option<int>, limit: Option<int>)
    requires multiset(sorted) == multiset(filtered)
    ensures var r := Paginate(sorted, page, limit);
      forall i | 0 <= i < |r.items| :: r.items[i] in filtered
  {
    var r := Paginate(sorted, page, limit);
    forall i | 0 <= i < |r.items| ensures r.items[i] in filtered {
      PageItemsIn(sorted, r.page, r.limit, r.items[i]);
      assert r.items[i] in multiset(sorted);
    }
  }

  lemma SortedPageOrder<T>(filtered: seq<T>, sort: Option<string>, rank: (string, T) -> int,
                           page: Option<int>, limit: Option<int>)
    ensures var r := Paginate(SortWith(filtered, SortSpec(sort), rank), page, limit);
      && (SortSpec(sort).Some? && !SortSpec(sort).value.1 ==> var field := SortSpec(sort).value.0;
          forall i, j | 0 <= i < j < |r.items| :: rank(field, r.items[i]) <= rank(field, r.items[j]))
      && (SortSpec(sort).Some? && SortSpec(sort).value.1 ==> var field := SortSpec(sort).value.0;
          forall i, j | 0 <= i < j < |r.items| :: rank(field, r.items[i]) >= rank(field, r.items[j]))
  {
    var sorted := SortWith(filtered, SortSpec(sort), rank);
    var r := Paginate(sorted, page, limit);
    if SortSpec(sort).Some? {
      var (field, descending) := SortSpec(sort).value;
      PageKeepsOrder(sorted, r.page, r.limit, (x: T) => rank(field, x), !descending);
    }
  }

  /** A page of a list ordered by `key` (ascending or descending) is in the
      same order. */
  lemma PageKeepsOrder<T>(s: seq<T>, page: int, limit: int, key: T -> int, ascending: bool)
    requires ascending ==> forall i, j | 0 <= i < j < |s| :: key(s[i]) <= key(s[j])
    requires !ascending ==> forall i, j | 0 <= i < j < |s| :: key(s[i]) >= key(s[j])
    ensures var r := PageItems(s, page, limit);
      && (ascending ==> forall i, j | 0 <= i < j < |r| :: key(r[i]) <= key(r[j]))
      && (!ascending ==> forall i, j | 0 <= i < j < |r| :: key(r[i]) >= key(r[j]))
  {
    var from, to := RelIndex(|s|, (page - 1) * limit), RelIndex(|s|, page * limit);
    var r := PageItems(s, page, limit);
    if from < to {
      assert forall i | 0 <= i < |r| :: r[i] == s[from + i];
    }
  }

  /** An absent limit pages exactly like the explicit default of 10. */
  lemma SortAndPageLimit<T>(filtered: seq<T>, sort: Option<string>, rank: (string, T) -> int,
                            page: Option<int>, limit: Option<int>)
    ensures SortAndPage(filtered, sort, rank, page, limit).items
         == SortAndPage(filtered, sort, rank, page, Some(NumberOr(limit, 10))).items
  {
  }

  /** Pages `1..n` of `fetchProducts` for a query, the page number varying. */
  function ProductPageList(db: Db, q: ProductQuery, rank: (string, Product) -> int, n: nat): (r: seq<seq<Product>>)
    ensures |r| == n
  {
    seq(n, i => ProductPage(db, q, rank, i + 1))
  }

  /** The items `fetchProducts` returns for page `k` of a query. */
  function ProductPage(db: Db, q: ProductQuery, rank: (string, Product) -> int, k: int): seq<Product> {
    FetchProducts(db, q.(page := Some(k)), rank).items
  }

  /** Paging through `fetchProducts` from page 1 to `totalPages` lists every
      matching product exactly once, in the order the sort asks for. */
  lemma ProductPagesCover(db: Db, q: ProductQuery, rank: (string, Product) -> int)
    requires NumberOr(q.limit, 10) >= 1
    ensures var n := FetchProducts(db, q, rank).totalPages;
      n >= 0 && Flatten(ProductPageList(db, q, rank, n)) == SortWith(FilterProducts(db.products, q), SortSpec(q.sort), rank)
  {
    var l := NumberOr(q.limit, 10);
    var sorted := SortWith(FilterProducts(db.products, q), SortSpec(q.sort), rank);
    var n := FetchProducts(db, q, rank).totalPages;
    ProductPagesAreSortedPages(db, q, rank, n);
    ProductPageCount(db, q, rank);
    PagesCoverList(ProductPageList(db, q, rank, n), sorted, l);
  }

  /** `fetchProducts` counts the pages of the sorted matches. */
  lemma ProductPageCount(db: Db, q: ProductQuery, rank: (string, Product) -> int)
    ensures FetchProducts(db, q, rank).totalPages
         == Paginate(SortWith(FilterProducts(db.products, q), SortSpec(q.sort), rank), None, Some(NumberOr(q.limit, 10))).totalPages
  {
  }

  /** Page `k` of `fetchProducts` is page `k` of the sorted matches. */
  lemma ProductPagesAreSortedPages(db: Db, q: ProductQuery, rank: (string, Product) -> int, n: nat)
    ensures PagesOf(ProductPageList(db, q, rank, n), SortWith(FilterProducts(db.products, q), SortSpec(q.sort), rank), NumberOr(q.limit, 10))
  {
    forall k | 0 <= k < n
      ensures ProductPageList(db, q, rank, n)[k]
           == Paginate(SortWith(FilterProducts(db.products, q), SortSpec(q.sort), rank), Some(k + 1), Some(NumberOr(q.limit, 10))).items
    {
      ProductPageListAt(db, q, rank, n, k);
      ProductPageOf(db, q, rank, k + 1);
    }
  }

  lemma ProductPageListAt(db: Db, q: ProductQuery, rank: (string, Product) -> int, n: nat, k: nat)
    requires k < n
    ensures ProductPageList(db, q, rank, n)[k] == ProductPage(db, q, rank, k + 1)
  {
  }

  /** Page `k` of `fetchProducts` is page `k` of the filtered list. */
  lemma ProductPageOf(db: Db, q: ProductQuery, rank: (string, Product) -> int, k: int)
    ensures ProductPage(db, q, rank, k)
         == Paginate(SortWith(FilterProducts(db.products, q), SortSpec(q.sort), rank), Some(k), Some(NumberOr(q.limit, 10))).items
  {
    ProductFilterIgnoresPage(db.products, q, Some(k));
    SortAndPageLimit(FilterProducts(db.products, q), q.sort, rank, Some(k), q.limit);
  }

  lemma ProductFilterIgnoresPage(xs: seq<Product>, q: ProductQuery, page: Option<int>)
    ensures FilterProducts(xs, q.(page := page)) == FilterProducts(xs, q)
  {
    FilterExt(xs, (x: Product) => ProductMatches(x, q.(page := page)), (x: Product) => ProductMatches(x, q));
  }

  lemma PageItemsIn<T>(s: seq<T>, page: int, limit: int, x: T)
    requires x in PageItems(s, page, limit)
    ensures x in s
  {
    var from, to := RelIndex(|s|, (page - 1) * limit), RelIndex(|s|, page * limit);
    var k :| 0 <= k < |PageItems(s, page, limit)| && PageItems(s, page, limit)[k] == x;
    assert s[from..to][k] == s[from + k];
  }

  /** The filters the products screen starts with: every key present and
      empty. */
  function BlankProductQuery(): ProductQuery {
    ProductQuery(Some(""), Some(""), Some(""), Some(""), Some("createdAt:desc"), Some(1), Some(10))
  }

  /** With the screen's initial filters the price bounds `''` count as 0, so
      only products priced at most 0 (and at least 0) are listed. */
  lemma BlankBoundsKeepOnlyFree(p: Product)
    ensures ProductMatches(p, BlankProductQuery()) <==> p.price == 0.0
  {
    assert ToNumber("") == Some(0.0);
    assert MinPriceOk(p, Some("")) <==> p.price >= 0.0;
    assert MaxPriceOk(p, Some("")) <==> p.price <= 0.0;
  }

  /** A product priced 12.50 is hidden by the initial filters. */
  lemma BlankBoundsHidePricedProduct()
    ensures var p := Product(1, "Product 1", "", 12.5, "Books", 5, 40, "", 0, 0);
      FilterProducts([p], BlankProductQuery()) == []
  {
    var p := Product(1, "Product 1", "", 12.5, "Books", 5, 40, "", 0, 0);
    BlankBoundsKeepOnlyFree(p);
  }

  /** The price filters as evidently intended: a bound applies only when it
      is non-empty. */
  predicate ProductMatchesFixed(p: Product, q: ProductQuery) {
    && (Truthy(q.category) ==> InCategory(p, q.category))
    && (Truthy(q.search) ==> ProductSearchHit(p, q.search))
    && (Truthy(q.minPrice) ==> MinPriceOk(p, q.minPrice))
    && (Truthy(q.maxPrice) ==> MaxPriceOk(p, q.maxPrice))
  }

  function FilterProductsFixed(ps: seq<Product>, q: ProductQuery): (r: seq<Product>)
    ensures forall p :: p in r <==> p in ps && ProductMatchesFixed(p, q)
    ensures Truthy(q.minPrice) == q.minPrice.Some? && Truthy(q.maxPrice) == q.maxPrice.Some? ==>
      r == FilterProducts(ps, q)
  {
    var r := Filter(ps, p => ProductMatchesFixed(p, q));
    assert Truthy(q.minPrice) == q.minPrice.Some? && Truthy(q.maxPrice) == q.maxPrice.Some? ==>
      r == FilterProducts(ps, q) by {
      if Truthy(q.minPrice) == q.minPrice.Some? && Truthy(q.maxPrice) == q.maxPrice.Some? {
        FilterExt(ps, p => ProductMatchesFixed(p, q), p => ProductMatches(p, q));
      }
    }
    r
  }

  /** With the corrected filters the initial screen lists every product. */
  lemma BlankQueryKeepsAllFixed(ps: seq<Product>)
    ensures FilterProductsFixed(ps, BlankProductQuery()) == ps
  {
    FilterAll(ps, p => ProductMatchesFixed(p, BlankProductQuery()));
  }

  /** A price bound written with cents is read as that number: decimal
      text `u` as a lower bound keeps exactly the products priced at least
      its value, and as an upper bound those priced at most its value. */
  lemma DecimalPriceBounds(p: Product, w: string, f: string, u: string)
    requires AllDigits(w) && AllDigits(f) && |w| + |f| >= 1 && u == w + "." + f
    ensures var v := DecimalValue(w) as real + FractionValue(f);
      && (MinPriceOk(p, Some(u)) <==> p.price >= v)
      && (MaxPriceOk(p, Some(u)) <==> p.price <= v)
  {
    ToNumberOfDecimal(w, f, u);
  }

  /** A minus sign in front of a bound negates it: unsigned decimal text of
      value `v` with a minus sign is the bound `-v` on either side. */
  lemma NegativePriceBounds(p: Product, u: string, v: real)
    requires u != [] && (u[0] == '.' || IsDigit(u[0]))
    requires forall i | 0 <= i < |u| :: u[i] == '.' || IsDigit(u[i])
    requires UnsignedDecimal(u) == Some(v)
    ensures MinPriceOk(p, Some("-" + u)) <==> p.price >= -v
    ensures MaxPriceOk(p, Some("-" + u)) <==> p.price <= -v
  {
    ToNumberOfUnsigned(u, v);
  }

  /** A lower bound of `"9.99"` keeps a product priced 12.50 and an upper
      bound of `"9.99"` drops it. */
  lemma CentsBoundsFilter()
    ensures var p := Product(1, "Product 1", "", 12.5, "Books", 5, 40, "", 0, 0);
      && FilterProducts([p], ProductQuery(None, None, Some("9.99"), None, None, None, None)) == [p]
      && FilterProducts([p], ProductQuery(None, None, None, Some("9.99"), None, None, None)) == []
  {
    ToNumberOfPrice();
  }

  /** The fields a create or update payload may carry; each present field
      overrides the stored one (`{...product, ...payload}`). */
  datatype ProductPatch = ProductPatch(
    id: Option<int>, name: Option<string>, description: Option<string>, price: Option<real>,
    category: Option<string>, inventory: Option<int>, rating: Option<int>, image: Option<string>,
    createdAt: Option<int>)

  function Overlay(p: Product, d: ProductPatch): (r: Product)
    ensures d == ProductPatch(None, None, None, None, None, None, None, None, None) ==> r == p
    ensures r.id == d.id.GetOr(p.id) && r.name == d.name.GetOr(p.name) && r.price == d.price.GetOr(p.price)
    ensures r.description == d.description.GetOr(p.description) && r.category == d.category.GetOr(p.category)
    ensures r.inventory == d.inventory.GetOr(p.inventory) && r.rating == d.rating.GetOr(p.rating)
    ensures r.image == d.image.GetOr(p.image) && r.createdAt == d.createdAt.GetOr(p.createdAt)
    ensures r.updatedAt == p.updatedAt
  {
    Product(d.id.GetOr(p.id), d.name.GetOr(p.name), d.description.GetOr(p.description), d.price.GetOr(p.price),
            d.category.GetOr(p.category), d.inventory.GetOr(p.inventory), d.rating.GetOr(p.rating),
            d.image.GetOr(p.image), d.createdAt.GetOr(p.createdAt), p.updatedAt)
  }

  /** `p.id === parseInt(id)`. */
  function HasProductId(id: string): Product -> bool {
    (p: Product) => ParseInt(id) == Some(p.id)
  }

  /** `fetchProductById`. */
  function FetchProductById(db: Db, id: string): (r: Result<Product>)
    ensures r.Err? <==> forall i | 0 <= i < |db.products| :: ParseInt(id) != Some(db.products[i].id)
    ensures r.Err? ==> r.message == "Product not found"
    ensures r.Ok? ==> r.value in db.products && Some(r.value.id) == ParseInt(id)
  {
    match FindIndex(db.products, HasProductId(id))
    case None => Err("Product not found")
    case Some(i) => Ok(db.products[i])
  }

  /** `createProduct` as written: the new id is the table length plus one,
      unless the payload brings its own. */
  function CreateProduct(db: Db, d: ProductPatch, now: int): (r: (Db, Product))
    ensures r.1.id == d.id.GetOr(|db.products| + 1)
    ensures r.1.createdAt == now && r.1.updatedAt == now
    ensures r.1.name == d.name.GetOr("") && r.1.price == d.price.GetOr(0.0) && r.1.category == d.category.GetOr("")
    ensures r.0 == db.(products := db.products + [r.1])
  {
    var base := Product(|db.products| + 1, "", "", 0.0, "", 0, 0, "", now, now);
    var p := Overlay(base, d).(createdAt := now, updatedAt := now);
    (db.(products := db.products + [p]), p)
  }

  /** An id written in radix 16 with a `0x` prefix finds its product, as
      `parseInt` reads it: "0x2" fetches product 2. */
  lemma HexIdFindsProduct(db: Db, i: int)
    requires 0 <= i < |db.products| && db.products[i].id == 2
    ensures FetchProductById(db, "0x2").Ok? && FetchProductById(db, "0x2").value.id == 2
  {
    ParseIntHexExamples();
  }

  /** `updateProduct`: overlay the payload on the first product with the
      parsed id and stamp `updatedAt`; an unknown id fails. */
  function UpdateProduct(db: Db, id: string, d: ProductPatch, now: int): (r: Result<(Db, Product)>)
    ensures r.Err? <==> FindIndex(db.products, HasProductId(id)).None?
    ensures r.Err? ==> r.message == "Product not found"
    ensures r.Ok? ==>
      var i := FindIndex(db.products, HasProductId(id)).value;
      && r.value.1 == Overlay(db.products[i], d).(updatedAt := now)
      && r.value.0 == db.(products := db.products[i := r.value.1])
  {
    match FindIndex(db.products, HasProductId(id))
    case None => Err("Product not found")
    case Some(i) =>
      var p := Overlay(db.products[i], d).(updatedAt := now);
      Ok((db.(products := db.products[i := p]), p))
  }

  /** `deleteProduct`: remove the first product with the parsed id. */
  function DeleteProduct(db: Db, id: string): (r: Result<Db>)
    ensures r.Err? <==> FindIndex(db.products, HasProductId(id)).None?
    ensures r.Err? ==> r.message == "Product not found"
    ensures r.Ok? ==>
      var i := FindIndex(db.products, HasProductId(id)).value;
      r.value == db.(products := RemoveAt(db.products, i))
  {
    match FindIndex(db.products, HasProductId(id))
    case None => Err("Product not found")
    case Some(i) => Ok(db.(products := RemoveAt(db.products, i)))
  }

  /** An update that keeps the id is visible to the next read by that id. */
  lemma UpdateThenFetch(db: Db, id: string, d: ProductPatch, now: int)
    requires d.id.None?
    requires UpdateProduct(db, id, d, now).Ok?
    ensures var (db2, p) := UpdateProduct(db, id, d, now).value;
      FetchProductById(db2, id) == Ok(p)
  {
    var i := FindIndex(db.products, HasProductId(id)).value;
    var (db2, p) := UpdateProduct(db, id, d, now).value;
    assert db2.products == db.products[i := p];
    assert p.id == db.products[i].id;
    FindIndexIs(db2.products, HasProductId(id), i);
  }

  function ProductIds(ps: seq<Product>): seq<int> {
    Map(ps, (p: Product) => p.id)
  }

  /** Creating a product and deleting it by the id it was given restores the
      table, provided that id was not in use. */
  lemma CreateThenDelete(db: Db, d: ProductPatch, now: int)
    requires d.id.None? && (|db.products| + 1) !in ProductIds(db.products)
    ensures var (db2, p) := CreateProduct(db, d, now);
      DeleteProduct(db2, IntString(p.id)) == Ok(db)
  {
    var (db2, p) := CreateProduct(db, d, now);
    var n := |db.products|;
    var test := HasProductId(IntString(n + 1));
    assert p.id == n + 1 && db2.products == db.products + [p];
    ParseIntRoundTrip(n + 1);
    assert test(p);
    forall j | 0 <= j < n ensures !test(db.products[j]) {
      assert ProductIds(db.products)[j] == db.products[j].id;
    }
    FindAppended(db.products, p, test);
    assert RemoveAt(db2.products, n) == db.products;
  }

  /** The first match in a list with one element appended, when only that
      element matches. */
  lemma FindAppended<T>(s: seq<T>, x: T, f: T -> bool)
    requires f(x) && forall j | 0 <= j < |s| :: !f(s[j])
    ensures FindIndex(s + [x], f) == Some(|s|)
  {
    var t := s + [x];
    assert t[|s|] == x;
    assert forall j | 0 <= j < |s| :: t[j] == s[j];
  }

  /** `createProduct` as written reuses an id after a delete: with products
      1 and 2, deleting 1 and creating another gives a second product 2. */
  lemma CreateAfterDeleteDuplicatesId()
    ensures var p1 := Product(1, "Product 1", "", 10.0, "Books", 1, 40, "", 0, 0);
      var p2 := Product(2, "Product 2", "", 20.0, "Toys", 1, 40, "", 0, 0);
      var db := Db([p1, p2], [], []);
      var none := ProductPatch(None, None, None, None, None, None, None, None, None);
      DeleteProduct(db, "1").Ok?
      && var (db3, p) := CreateProduct(DeleteProduct(db, "1").value, none, 5);
      p.id == 2 && !NoDup(ProductIds(db3.products))
  {
    var p1 := Product(1, "Product 1", "", 10.0, "Books", 1, 40, "", 0, 0);
    var p2 := Product(2, "Product 2", "", 20.0, "Toys", 1, 40, "", 0, 0);
    var db := Db([p1, p2], [], []);
    ParseIntOfDigits("1");
    assert DecimalValue("1") == 1;
    assert HasProductId("1")(p1);
    assert FindIndex(db.products, HasProductId("1")) == Some(0);
    var db2 := DeleteProduct(db, "1").value;
    assert db2.products == [p2];
    var none := ProductPatch(None, None, None, None, None, None, None, None, None);
    var (db3, p) := CreateProduct(db2, none, 5);
    assert ProductIds(db3.products)[0] == 2 && ProductIds(db3.products)[1] == 2;
  }

  /** The largest id in the table, or 0 for an empty table. */
  function MaxId(ps: seq<Product>): (m: int)
    ensures m >= 0
    ensures forall i | 0 <= i < |ps| :: ps[i].id <= m
  {
    if |ps| == 0 then 0
    else
      var rest := MaxId(ps[1..]);
      assert forall i | 1 <= i < |ps| :: ps[i] == ps[1..][i - 1];
      if ps[0].id > rest then ps[0].id else rest
  }

  /** `createProduct` with a fresh id, one above the largest in use: ids stay
      distinct whenever the payload brings none. */
  function CreateProductFixed(db: Db, d: ProductPatch, now: int): (r: (Db, Product))
    ensures r.1.id == d.id.GetOr(MaxId(db.products) + 1)
    ensures r.1.createdAt == now && r.1.updatedAt == now
    ensures r.0 == db.(products := db.products + [r.1])
    ensures d.id.None? && NoDup(ProductIds(db.products)) ==> NoDup(ProductIds(r.0.products))
  {
    var base := Product(MaxId(db.products) + 1, "", "", 0.0, "", 0, 0, "", now, now);
    var p := Overlay(base, d).(createdAt := now, updatedAt := now);
    var ps := db.products + [p];
    assert d.id.None? && NoDup(ProductIds(db.products)) ==> NoDup(ProductIds(ps)) by {
      if d.id.None? && NoDup(ProductIds(db.products)) {
        var ids, ids2 := ProductIds(db.products), ProductIds(ps);
        forall i, j | 0 <= i < j < |ids2| ensures ids2[i] != ids2[j] {
          if j == |ps| - 1 {
            assert ids2[i] == db.products[i].id <= MaxId(db.products);
          } else {
            assert ids2[i] == ids[i] && ids2[j] == ids[j];
          }
        }
      }
    }
    (db.(products := ps), p)
  }

  // ---------------------------------------------------------------------
  // Orders.

  datatype OrderQuery = OrderQuery(
    status: Option<string>, customerId: Option<string>, search: Option<string>,
    sort: Option<string>, page: Option<int>, limit: Option<int>)

  predicate HasStatus(o: Order, status: Option<string>) {
    status.Some? && o.status == status.value
  }

  /** `o.customer_id === parseInt(customer_id)`; `NaN` equals nothing. */
  predicate OfCustomer(o: Order, customerId: Option<string>) {
    customerId.Some? && ParseInt(customerId.value) == Some(o.customerId)
  }

  predicate OrderSearchHit(o: Order, search: Option<string>) {
    search.Some? && (ContainsIgnoreCase(o.id, search.value) || ContainsIgnoreCase(o.customerName, search.value))
  }

  /** The order filters, each active only when its parameter is non-empty. */
  predicate OrderMatches(o: Order, q: OrderQuery) {
    && (Truthy(q.status) ==> HasStatus(o, q.status))
    && (Truthy(q.customerId) ==> OfCustomer(o, q.customerId))
    && (Truthy(q.search) ==> OrderSearchHit(o, q.search))
  }

  function FilterOrders(os: seq<Order>, q: OrderQuery): (r: seq<Order>)
    ensures r == Filter(os, o => OrderMatches(o, q))
    ensures forall o :: o in r <==> o in os && OrderMatches(o, q)
  {
    var w1 := (o: Order) => !Truthy(q.status) || HasStatus(o, q.status);
    var w2 := (o: Order) => !Truthy(q.customerId) || OfCustomer(o, q.customerId);
    var w3 := (o: Order) => !Truthy(q.search) || OrderSearchHit(o, q.search);
    var yes := (o: Order) => true;
    var a := FilterIf(os, Truthy(q.status), o => HasStatus(o, q.status));
    var b := FilterIf(a, Truthy(q.customerId), o => OfCustomer(o, q.customerId));
    var c := FilterIf(b, Truthy(q.search), o => OrderSearchHit(o, q.search));
    FilterIfAs(os, Truthy(q.status), o => HasStatus(o, q.status), w1);
    FilterIfAs(a, Truthy(q.customerId), o => OfCustomer(o, q.customerId), w2);
    FilterIfAs(b, Truthy(q.search), o => OrderSearchHit(o, q.search), w3);
    FilterAll(c, yes);
    FourStages(os, w1, w2, w3, yes, o => OrderMatches(o, q));
    c
  }

  /** `fetchOrders`: filter, sort, then paginate. */
  function FetchOrders(db: Db, q: OrderQuery, rank: (string, Order) -> int): (r: Page<Order>)
    ensures r.total == Count(db.orders, o => OrderMatches(o, q))
    ensures forall i | 0 <= i < |r.items| :: r.items[i] in db.orders && OrderMatches(r.items[i], q)
    ensures r.page == NumberOr(q.page, 1) && r.limit == NumberOr(q.limit, 10)
    ensures SortSpec(q.sort).Some? && !SortSpec(q.sort).value.1 ==> var field := SortSpec(q.sort).value.0;
      forall i, j | 0 <= i < j < |r.items| :: rank(field, r.items[i]) <= rank(field, r.items[j])
    ensures SortSpec(q.sort).Some? && SortSpec(q.sort).value.1 ==> var field := SortSpec(q.sort).value.0;
      forall i, j | 0 <= i < j < |r.items| :: rank(field, r.items[i]) >= rank(field, r.items[j])
  {
    SortAndPage(FilterOrders(db.orders, q), q.sort, rank, q.page, q.limit)
  }

  /** Pages `1..n` of `fetchOrders` for a query, the page number varying. */
  function OrderPageList(db: Db, q: OrderQuery, rank: (string, Order) -> int, n: nat): (r: seq<seq<Order>>)
    ensures |r| == n
  {
    seq(n, i => OrderPage(db, q, rank, i + 1))
  }

  /** The items `fetchOrders` returns for page `k` of a query. */
  function OrderPage(db: Db, q: OrderQuery, rank: (string, Order) -> int, k: int): seq<Order> {
    FetchOrders(db, q.(page := Some(k)), rank).items
  }

  /** Paging through `fetchOrders` from page 1 to `totalPages` lists every
      matching order exactly once, in the order the sort asks for. */
  lemma OrderPagesCover(db: Db, q: OrderQuery, rank: (string, Order) -> int)
    requires NumberOr(q.limit, 10) >= 1
    ensures var n := FetchOrders(db, q, rank).totalPages;
      n >= 0 && Flatten(OrderPageList(db, q, rank, n)) == SortWith(FilterOrders(db.orders, q), SortSpec(q.sort), rank)
  {
    var l := NumberOr(q.limit, 10);
    var sorted := SortWith(FilterOrders(db.orders, q), SortSpec(q.sort), rank);
    var n := FetchOrders(db, q, rank).totalPages;
    OrderPagesAreSortedPages(db, q, rank, n);
    OrderPageCount(db, q, rank);
    PagesCoverList(OrderPageList(db, q, rank, n), sorted, l);
  }

  /** `fetchOrders` counts the pages of the sorted matches. */
  lemma OrderPageCount(db: Db, q: OrderQuery, rank: (string, Order) -> int)
    ensures FetchOrders(db, q, rank).totalPages
         == Paginate(SortWith(FilterOrders(db.orders, q), SortSpec(q.sort), rank), None, Some(NumberOr(q.limit, 10))).totalPages
  {
  }

  /** Page `k` of `fetchOrders` is page `k` of the sorted matches. */
  lemma OrderPagesAreSortedPages(db: Db, q: OrderQuery, rank: (string, Order) -> int, n: nat)
    ensures PagesOf(OrderPageList(db, q, rank, n), SortWith(FilterOrders(db.orders, q), SortSpec(q.sort), rank), NumberOr(q.limit, 10))
  {
    forall k | 0 <= k < n
      ensures OrderPageList(db, q, rank, n)[k]
           == Paginate(SortWith(FilterOrders(db.orders, q), SortSpec(q.sort), rank), Some(k + 1), Some(NumberOr(q.limit, 10))).items
    {
      OrderPageListAt(db, q, rank, n, k);
      OrderPageOf(db, q, rank, k + 1);
    }
  }

  lemma OrderPageListAt(db: Db, q: OrderQuery, rank: (string, Order) -> int, n: nat, k: nat)
    requires k < n
    ensures OrderPageList(db, q, rank, n)[k] == OrderPage(db, q, rank, k + 1)
  {
  }

  /** Page `k` of `fetchOrders` is page `k` of the filtered list. */
  lemma OrderPageOf(db: Db, q: OrderQuery, rank: (string, Order) -> int, k: int)
    ensures OrderPage(db, q, rank, k)
         == Paginate(SortWith(FilterOrders(db.orders, q), SortSpec(q.sort), rank), Some(k), Some(NumberOr(q.limit, 10))).items
  {
    OrderFilterIgnoresPage(db.orders, q, Some(k));
    SortAndPageLimit(FilterOrders(db.orders, q), q.sort, rank, Some(k), q.limit);
  }

  lemma OrderFilterIgnoresPage(xs: seq<Order>, q: OrderQuery, page: Option<int>)
    ensures FilterOrders(xs, q.(page := page)) == FilterOrders(xs, q)
  {
    FilterExt(xs, (x: Order) => OrderMatches(x, q.(page := page)), (x: Order) => OrderMatches(x, q));
  }

  function HasOrderId(id: string): Order -> bool {
    (o: Order) => o.id == id
  }

  /** `fetchOrderById`: ids are compared as text. */
  function FetchOrderById(db: Db, id: string): (r: Result<Order>)
    ensures r.Err? <==> forall i | 0 <= i < |db.orders| :: db.orders[i].id != id
    ensures r.Err? ==> r.message == "Order not found"
    ensures r.Ok? ==> r.value in db.orders && r.value.id == id
  {
    match FindIndex(db.orders, HasOrderId(id))
    case None => Err("Order not found")
    case Some(i) => Ok(db.orders[i])
  }

  /** `updateOrderStatus`: only `status` and `updated_at` of the first order
      with that id change. */
  function UpdateOrderStatus(db: Db, id: string, status: string, now: int): (r: Result<(Db, Order)>)
    ensures r.Err? <==> forall i | 0 <= i < |db.orders| :: db.orders[i].id != id
    ensures r.Err? ==> r.message == "Order not found"
    ensures r.Ok? ==>
      var i := FindIndex(db.orders, HasOrderId(id)).value;
      && r.value.1 == db.orders[i].(status := status, updatedAt := now)
      && r.value.0 == db.(orders := db.orders[i := r.value.1])
  {
    match FindIndex(db.orders, HasOrderId(id))
    case None => Err("Order not found")
    case Some(i) =>
      var o := db.orders[i].(status := status, updatedAt := now);
      Ok((db.(orders := db.orders[i := o]), o))
  }

  /** After a status change the order reads back with the new status, and
      every other order is untouched. */
  lemma UpdateOrderStatusThenFetch(db: Db, id: string, status: string, now: int)
    requires UpdateOrderStatus(db, id, status, now).Ok?
    ensures var (db2, o) := UpdateOrderStatus(db, id, status, now).value;
      FetchOrderById(db2, id) == Ok(o) && o.status == status && o.id == id
      && |db2.orders| == |db.orders|
      && forall j | 0 <= j < |db.orders| && db.orders[j] != db2.orders[j] :: db.orders[j].id == id
  {
    var i := FindIndex(db.orders, HasOrderId(id)).value;
    var (db2, o) := UpdateOrderStatus(db, id, status, now).value;
    assert FindIndex(db2.orders, HasOrderId(id)) == Some(i) by {
      assert forall j | 0 <= j < i :: db2.orders[j] == db.orders[j];
    }
  }

  // ---------------------------------------------------------------------
  // Customers.

  datatype CustomerQuery = CustomerQuery(search: Option<string>, sort: Option<string>, page: Option<int>, limit: Option<int>)

  /** Name and email match case-insensitively; the phone number is matched
      against the term as typed. */
  predicate CustomerSearchHit(c: Customer, search: Option<string>) {
    search.Some? &&
    (ContainsIgnoreCase(c.name, search.value) || ContainsIgnoreCase(c.email, search.value) || Contains(c.phone, search.value))
  }

  predicate CustomerMatches(c: Customer, q: CustomerQuery) {
    Truthy(q.search) ==> CustomerSearchHit(c, q.search)
  }

  function FilterCustomers(cs: seq<Customer>, q: CustomerQuery): (r: seq<Customer>)
    ensures r == Filter(cs, c => CustomerMatches(c, q))
    ensures forall c :: c in r <==> c in cs && CustomerMatches(c, q)
  {
    FilterIfAs(cs, Truthy(q.search), c => CustomerSearchHit(c, q.search), c => CustomerMatches(c, q));
    FilterIf(cs, Truthy(q.search), c => CustomerSearchHit(c, q.search))
  }

  /** `fetchCustomers`: filter, sort, then paginate. */
  function FetchCustomers(db: Db, q: CustomerQuery, rank: (string, Customer) -> int): (r: Page<Customer>)
    ensures r.total == Count(db.customers, c => CustomerMatches(c, q))
    ensures forall i | 0 <= i < |r.items| :: r.items[i] in db.customers && CustomerMatches(r.items[i], q)
    ensures r.page == NumberOr(q.page, 1) && r.limit == NumberOr(q.limit, 10)
    ensures SortSpec(q.sort).Some? && !SortSpec(q.sort).value.1 ==> var field := SortSpec(q.sort).value.0;
      forall i, j | 0 <= i < j < |r.items| :: rank(field, r.items[i]) <= rank(field, r.items[j])
    ensures SortSpec(q.sort).Some? && SortSpec(q.sort).value.1 ==> var field := SortSpec(q.sort).value.0;
      forall i, j | 0 <= i < j < |r.items| :: rank(field, r.items[i]) >= rank(field, r.items[j])
  {
    SortAndPage(FilterCustomers(db.customers, q), q.sort, rank, q.page, q.limit)
  }

  /** Pages `1..n` of `fetchCustomers` for a query, the page number varying. */
  function CustomerPageList(db: Db, q: CustomerQuery, rank: (string, Customer) -> int, n: nat): (r: seq<seq<Customer>>)
    ensures |r| == n
  {
    seq(n, i => CustomerPage(db, q, rank, i + 1))
  }

  /** The items `fetchCustomers` returns for page `k` of a query. */
  function CustomerPage(db: Db, q: CustomerQuery, rank: (string, Customer) -> int, k: int): seq<Customer> {
    FetchCustomers(db, q.(page := Some(k)), rank).items
  }

  /** Paging through `fetchCustomers` from page 1 to `totalPages` lists every
      matching customer exactly once, in the order the sort asks for. */
  lemma CustomerPagesCover(db: Db, q: CustomerQuery, rank: (string, Customer) -> int)
    requires NumberOr(q.limit, 10) >= 1
    ensures var n := FetchCustomers(db, q, rank).totalPages;
      n >= 0 && Flatten(CustomerPageList(db, q, rank, n)) == SortWith(FilterCustomers(db.customers, q), SortSpec(q.sort), rank)
  {
    var l := NumberOr(q.limit, 10);
    var sorted := SortWith(FilterCustomers(db.customers, q), SortSpec(q.sort), rank);
    var n := FetchCustomers(db, q, rank).totalPages;
    CustomerPagesAreSortedPages(db, q, rank, n);
    CustomerPageCount(db, q, rank);
    PagesCoverList(CustomerPageList(db, q, rank, n), sorted, l);
  }

  /** `fetchCustomers` counts the pages of the sorted matches. */
  lemma CustomerPageCount(db: Db, q: CustomerQuery, rank: (string, Customer) -> int)
    ensures FetchCustomers(db, q, rank).totalPages
         == Paginate(SortWith(FilterCustomers(db.customers, q), SortSpec(q.sort), rank), None, Some(NumberOr(q.limit, 10))).totalPages
  {
  }

  /** Page `k` of `fetchCustomers` is page `k` of the sorted matches. */
  lemma CustomerPagesAreSortedPages(db: Db, q: CustomerQuery, rank: (string, Customer) -> int, n: nat)
    ensures PagesOf(CustomerPageList(db, q, rank, n), SortWith(FilterCustomers(db.customers, q), SortSpec(q.sort), rank), NumberOr(q.limit, 10))
  {
    forall k | 0 <= k < n
      ensures CustomerPageList(db, q, rank, n)[k]
           == Paginate(SortWith(FilterCustomers(db.customers, q), SortSpec(q.sort), rank), Some(k + 1), Some(NumberOr(q.limit, 10))).items
    {
      CustomerPageListAt(db, q, rank, n, k);
      CustomerPageOf(db, q, rank, k + 1);
    }
  }

  lemma CustomerPageListAt(db: Db, q: CustomerQuery, rank: (string, Customer) -> int, n: nat, k: nat)
    requires k < n
    ensures CustomerPageList(db, q, rank, n)[k] == CustomerPage(db, q, rank, k + 1)
  {
  }

  /** Page `k` of `fetchCustomers` is page `k` of the filtered list. */
  lemma CustomerPageOf(db: Db, q: CustomerQuery, rank: (string, Customer) -> int, k: int)
    ensures CustomerPage(db, q, rank, k)
         == Paginate(SortWith(FilterCustomers(db.customers, q), SortSpec(q.sort), rank), Some(k), Some(NumberOr(q.limit, 10))).items
  {
    CustomerFilterIgnoresPage(db.customers, q, Some(k));
    SortAndPageLimit(FilterCustomers(db.customers, q), q.sort, rank, Some(k), q.limit);
  }

  lemma CustomerFilterIgnoresPage(xs: seq<Customer>, q: CustomerQuery, page: Option<int>)
    ensures FilterCustomers(xs, q.(page := page)) == FilterCustomers(xs, q)
  {
    FilterExt(xs, (x: Customer) => CustomerMatches(x, q.(page := page)), (x: Customer) => CustomerMatches(x, q));
  }

  function HasCustomerId(id: string): Customer -> bool {
    (c: Customer) => ParseInt(id) == Some(c.id)
  }

  /** `fetchCustomerById`. */
  function FetchCustomerById(db: Db, id: string): (r: Result<Customer>)
    ensures r.Err? <==> forall i | 0 <= i < |db.customers| :: ParseInt(id) != Some(db.customers[i].id)
    ensures r.Err? ==> r.message == "Customer not found"
    ensures r.Ok? ==> r.value in db.customers && Some(r.value.id) == ParseInt(id)
  {
    match FindIndex(db.customers, HasCustomerId(id))
    case None => Err("Customer not found")
    case Some(i) => Ok(db.customers[i])
  }

  /** `fetchCustomerOrders`: every order whose customer id equals the parsed
      id, in table order. */
  function FetchCustomerOrders(db: Db, customerId: string): (r: seq<Order>)
    ensures forall o :: o in r <==> o in db.orders && ParseInt(customerId) == Some(o.customerId)
  {
    Filter(db.orders, (o: Order) => ParseInt(customerId) == Some(o.customerId))
  }

  /** The customer screen's order list and the orders endpoint's customer
      filter agree: both select the orders of the customer written as
      `String(id)`, and nobody else's. */
  lemma CustomerOrdersAgree(db: Db, id: int)
    ensures FetchCustomerOrders(db, IntString(id))
         == FilterOrders(db.orders, OrderQuery(None, Some(IntString(id)), None, None, None, None))
    ensures forall o :: o in FetchCustomerOrders(db, IntString(id)) <==> o in db.orders && o.customerId == id
  {
    ParseIntRoundTrip(id);
    CustomerOrdersOfText(db, IntString(id), id);
  }

  /** The two order lists agree for any customer id text that parses to `id`. */
  lemma CustomerOrdersOfText(db: Db, text: string, id: int)
    requires ParseInt(text) == Some(id)
    ensures FetchCustomerOrders(db, text) == FilterOrders(db.orders, OrderQuery(None, Some(text), None, None, None, None))
    ensures forall o :: o in FetchCustomerOrders(db, text) <==> o in db.orders && o.customerId == id
  {
    var q := OrderQuery(None, Some(text), None, None, None, None);
    FilterExt(db.orders, (o: Order) => ParseInt(text) == Some(o.customerId), o => OrderMatches(o, q));
  }

  // ---------------------------------------------------------------------
  // Authentication.

  const TokenPrefix: string := "mock-jwt-token-"

  /** `mockLogin`: the first user with exactly that email and password;
      `suffix` stands for the random part of the token. */
  function MockLogin(email: string, password: string, suffix: string): (r: Result<Session>)
    ensures r.Ok? <==> exists i | 0 <= i < |Users()| :: Users()[i].email == email && Users()[i].password == password
    ensures r.Err? ==> r.message == "Invalid email or password"
    ensures r.Ok? ==> r.value.token == TokenPrefix + suffix && r.value.user.email == email
  {
    match FindIndex(Users(), (u: User) => u.email == email && u.password == password)
    case None => Err("Invalid email or password")
    case Some(i) => Ok(Session(Public(Users()[i]), TokenPrefix + suffix))
  }

  /** `mockCheckAuth`: any token with the mock prefix is accepted and
      answered with the user `pick` (the random choice). */
  function MockCheckAuth(token: Option<string>, pick: nat): (r: Result<PublicUser>)
    requires pick < |Users()|
    ensures r.Ok? <==> token.Some? && StartsWith(token.value, TokenPrefix)
    ensures r.Err? ==> r.message == "Invalid token"
    ensures r.Ok? ==> r.value == Public(Users()[pick])
  {
    if !Truthy(token) || !StartsWith(token.value, TokenPrefix) then Err("Invalid token")
    else Ok(Public(Users()[pick]))
  }

  /** A token handed out by a successful login passes the check. */
  lemma LoginTokenPassesCheck(email: string, password: string, suffix: string, pick: nat)
    requires pick < |Users()|
    requires MockLogin(email, password, suffix).Ok?
    ensures MockCheckAuth(Some(MockLogin(email, password, suffix).value.token), pick).Ok?
  {
    assert (TokenPrefix + suffix)[..|TokenPrefix|] == TokenPrefix;
  }

  /** The administrator's credentials log in as user 1. */
  lemma AdminLogsIn(suffix: string)
    ensures MockLogin("admin@example.com", "admin123", suffix) == Ok(Session(Public(Users()[0]), TokenPrefix + suffix))
  {
  }

  // ---------------------------------------------------------------------
  // Dashboard statistics.

  const OrderStatuses: seq<string> := ["pending", "processing", "shipped", "delivered", "cancelled"]

  /** One entry of `topSellingProducts`; the random `sales` and `revenue`
      figures are left out. */
  datatype TopProduct = TopProduct(id: int, name: string)

  /** The deterministic part of `fetchDashboardStats`. */
  datatype Stats = Stats(
    totalOrders: nat, totalProducts: nat, totalCustomers: nat,
    statusCounts: map<string, nat>, topProducts: seq<TopProduct>, recentOrders: seq<Order>)

  function HasStatusText(status: string): Order -> bool {
    (o: Order) => o.status == status
  }

  /** `orderStatuses.reduce((acc, s) => { acc[s] = count; return acc }, {})`. */
  function StatusCounts(orders: seq<Order>, statuses: seq<string>): (m: map<string, nat>)
    ensures m.Keys == set i | 0 <= i < |statuses| :: statuses[i]
    ensures forall k | k in m :: m[k] == CountKey(orders, (o: Order) => o.status, k)
  {
    if |statuses| == 0 then map[]
    else
      var k := statuses[|statuses| - 1];
      var rest := StatusCounts(orders, statuses[..|statuses| - 1]);
      assert forall i | 0 <= i < |statuses| - 1 :: statuses[..|statuses| - 1][i] == statuses[i];
      rest[k := CountKey(orders, (o: Order) => o.status, k)]
  }

  /** The products sorted by rating, best first, cut to the first five:
      five products taken from the table (all of them when there are fewer),
      in non-increasing rating, and no product left out rated above any
      product kept. Equal ratings keep table order (`TopRatedStable`). */
  function TopRated(ps: seq<Product>): (r: seq<Product>)
    ensures |r| == if |ps| < 5 then |ps| else 5
    ensures multiset(r) <= multiset(ps)
    ensures forall i, j | 0 <= i < j < |r| :: r[i].rating >= r[j].rating
    ensures forall p, i | p in multiset(ps) - multiset(r) && 0 <= i < |r| :: p.rating <= r[i].rating
  {
    var ranked := SortByKey(ps, Directed(RatingOf, false));
    DescendingOrder(ps, RatingOf);
    var k := if |ps| < 5 then |ps| else 5;
    TopRatedCut(ps, ranked, k);
    ranked[..k]
  }

  function RatingOf(p: Product): int {
    p.rating
  }

  /** Products of equal rating stay in table order: those of rating `v` on
      the list are the first products of rating `v` in the table. */
  lemma TopRatedStable(ps: seq<Product>, v: int)
    ensures WithKey(TopRated(ps), RatingOf, v) <= WithKey(ps, RatingOf, v)
  {
    DescendingCutStable(ps, RatingOf, v, if |ps| < 5 then |ps| else 5);
  }

  /** Cutting a best-first ordering of `ps` at `k` keeps `k` products, best
      first, and leaves out none rated above one kept. */
  lemma TopRatedCut(ps: seq<Product>, ranked: seq<Product>, k: nat)
    requires k <= |ranked| && multiset(ranked) == multiset(ps)
    requires forall i, j | 0 <= i < j < |ranked| :: RatingOf(ranked[i]) >= RatingOf(ranked[j])
    ensures var r := ranked[..k];
      && multiset(r) <= multiset(ps)
      && (forall i, j | 0 <= i < j < |r| :: r[i].rating >= r[j].rating)
      && (forall p, i | p in multiset(ps) - multiset(r) && 0 <= i < |r| :: p.rating <= r[i].rating)
  {
    var r := ranked[..k];
    DescendingPrefix(ps, ranked, RatingOf, k);
    forall p, i | p in multiset(ps) - multiset(r) && 0 <= i < |r|
      ensures p.rating <= r[i].rating
    {
      assert RatingOf(p) <= RatingOf(ranked[i]);
    }
    forall i, j | 0 <= i < j < |r|
      ensures r[i].rating >= r[j].rating
    {
      assert RatingOf(ranked[i]) >= RatingOf(ranked[j]);
    }
  }

  /** `fetchDashboardStats`, leaving out the random revenue and sales
      figures and the floating-point revenue total: the table sizes, the
      per-status order counts, the id and name of the five best-rated
      products, best first, and the first five orders. */
  function DashboardStats(db: Db): (r: Stats)
    ensures r.totalOrders == |db.orders| && r.totalProducts == |db.products| && r.totalCustomers == |db.customers|
    ensures r.statusCounts.Keys == set i | 0 <= i < |OrderStatuses| :: OrderStatuses[i]
    ensures forall k | k in r.statusCounts :: r.statusCounts[k] == CountKey(db.orders, (o: Order) => o.status, k)
    ensures |r.topProducts| == |TopRated(db.products)|
    ensures forall i | 0 <= i < |r.topProducts| ::
      r.topProducts[i] == TopProduct(TopRated(db.products)[i].id, TopRated(db.products)[i].name)
    ensures |r.recentOrders| == if |db.orders| < 5 then |db.orders| else 5
    ensures forall i | 0 <= i < |r.recentOrders| :: r.recentOrders[i] == db.orders[i]
  {
    var top := TopRated(db.products);
    Stats(|db.orders|, |db.products|, |db.customers|,
          StatusCounts(db.orders, OrderStatuses),
          Map(top, (p: Product) => TopProduct(p.id, p.name)), JsSlice(db.orders, 0, 5))
  }

  /** Every product on the dashboard is one of the table's products, listed
      with its own id and name. */
  lemma TopProductsFromTable(db: Db, i: int)
    requires 0 <= i < |DashboardStats(db).topProducts|
    ensures exists p | p in db.products :: DashboardStats(db).topProducts[i] == TopProduct(p.id, p.name)
  {
    var top := TopRated(db.products);
    assert top[i] in multiset(db.products);
  }

  /** When every order has one of the five statuses, the per-status counts
      add up to the number of orders. */
  lemma StatusCountsCoverOrders(db: Db)
    requires forall i | 0 <= i < |db.orders| :: db.orders[i].status in OrderStatuses
    ensures var m := DashboardStats(db).statusCounts;
      && "pending" in m && "processing" in m && "shipped" in m && "delivered" in m && "cancelled" in m
      && m["pending"] + m["processing"] + m["shipped"] + m["delivered"] + m["cancelled"] == |db.orders|
  {
    var key := (o: Order) => o.status;
    assert OrderStatuses[0] == "pending" && OrderStatuses[1] == "processing" && OrderStatuses[2] == "shipped";
    assert OrderStatuses[3] == "delivered" && OrderStatuses[4] == "cancelled";
    assert NoDup(OrderStatuses);
    CountsCover(db.orders, key, OrderStatuses);
    var f := k => CountKey(db.orders, key, k);
    assert SumOver(OrderStatuses, f)
        == f("pending") + f("processing") + f("shipped") + f("delivered") + f("cancelled");
  }
}
