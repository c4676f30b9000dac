/** The product gallery: the category tabs built from the catalogue and the
    list shown for the selected tab and search box. */
module ProductGallery {
  import opened Seqs
  import opened Text

  datatype Product = Product(id: int, name: string, category: string, price: real)

  /** The tab that shows every category. */
  const AllTab: string := "All"

  function CategoryOf(p: Product): string { p.category }

  /** `['All', ...new Set(products.map(p => p.category))]`: the `'All'` tab,
      then each category once, in the order it first appears. */
  function Categories(products: seq<Product>): (r: seq<string>)
    ensures |r| >= 1 && r[0] == AllTab
    ensures forall c :: c in r[1..] <==> exists i | 0 <= i < |products| :: products[i].category == c
    ensures NoDup(r[1..])
  {
    var cats := Dedup(Map(products, CategoryOf));
    assert ([AllTab] + cats)[1..] == cats;
    forall c ensures c in cats <==> exists i | 0 <= i < |products| :: products[i].category == c {
      if c in cats {
        var i :| 0 <= i < |products| && Map(products, CategoryOf)[i] == c;
      }
    }
    [AllTab] + cats
  }

  /** The tabs are distinct exactly when no product is itself filed under
      `'All'`; otherwise that tab appears twice. */
  lemma CategoriesDistinct(products: seq<Product>)
    ensures NoDup(Categories(products)) <==> forall i | 0 <= i < |products| :: products[i].category != AllTab
  {
    var r := Categories(products);
    if NoDup(r) {
      forall i | 0 <= i < |products| ensures products[i].category != AllTab {
        var c := products[i].category;
        assert c in r[1..];
        var k :| 0 <= k < |r[1..]| && r[1..][k] == c;
        assert r[k + 1] == c && r[0] != r[k + 1];
      }
    }
    if forall i | 0 <= i < |products| :: products[i].category != AllTab {
      assert AllTab !in r[1..];
      forall i, j | 0 <= i < j < |r| ensures r[i] != r[j] {
        if i > 0 {
          assert r[i] == r[1..][i - 1] && r[j] == r[1..][j - 1];
        } else {
          assert r[j] == r[1..][j - 1];
        }
      }
    }
  }

  /** The first product's category is the first tab after `'All'`. */
  lemma FirstCategoryFirst(products: seq<Product>)
    requires |products| > 0
    ensures |Categories(products)| >= 2 && Categories(products)[1] == products[0].category
  {
    DedupFirst(Map(products, CategoryOf));
  }

  predicate CategoryMatches(p: Product, selected: string) {
    selected == AllTab || p.category == selected
  }

  /** A non-empty query matches names that contain it, ignoring case. */
  predicate QueryMatches(p: Product, query: string) {
    query == "" || ContainsIgnoreCase(p.name, query)
  }

  function Shown(selected: string, query: string): Product -> bool {
    (p: Product) => CategoryMatches(p, selected) && QueryMatches(p, query)
  }

  function InCategory(selected: string): Product -> bool {
    (p: Product) => p.category == selected
  }

  function NameHas(query: string): Product -> bool {
    (p: Product) => ContainsIgnoreCase(p.name, query)
  }

  /** The gallery's effect: the category stage unless the tab is `'All'`,
      then the search stage when the query is non-empty. */
  function FilterGallery(products: seq<Product>, selected: string, query: string): (r: seq<Product>)
    ensures r == Filter(products, Shown(selected, query))
    ensures forall p :: p in r <==> p in products && CategoryMatches(p, selected) && QueryMatches(p, query)
    ensures |r| <= |products|
  {
    var byCategory := FilterIf(products, selected != AllTab, InCategory(selected));
    var r := FilterIf(byCategory, query != "", NameHas(query));
    BothStages(products, selected, query);
    r
  }

  lemma BothStages(products: seq<Product>, selected: string, query: string)
    ensures FilterIf(FilterIf(products, selected != AllTab, InCategory(selected)), query != "", NameHas(query))
      == Filter(products, Shown(selected, query))
  {
    var catOk := (p: Product) => CategoryMatches(p, selected);
    var queryOk := (p: Product) => QueryMatches(p, query);
    var byCategory := FilterIf(products, selected != AllTab, InCategory(selected));
    FilterIfAs(products, selected != AllTab, InCategory(selected), catOk);
    FilterIfAs(byCategory, query != "", NameHas(query), queryOk);
    FilterFilterAs(products, catOk, queryOk, Shown(selected, query));
  }

  /** "Showing n of m": the shown products keep the catalogue's order. */
  lemma ShownInOrder(products: seq<Product>, selected: string, query: string)
    ensures IsSubseq(FilterGallery(products, selected, query), products)
  {
    FilterIsSubseq(products, Shown(selected, query));
  }

  /** The start state, tab `'All'` and no query, shows the whole catalogue. */
  lemma InitialShowsAll(products: seq<Product>)
    ensures FilterGallery(products, AllTab, "") == products
  {
    FilterAll(products, Shown(AllTab, ""));
  }

  /** With no query, and no product filed under `'All'` itself, the
      category tabs after `'All'` split the catalogue: their counts add up
      to the number of products. */
  lemma TabsPartition(products: seq<Product>)
    requires forall i | 0 <= i < |products| :: products[i].category != AllTab
    ensures SumOver(Categories(products)[1..], c => |FilterGallery(products, c, "")|) == |products|
  {
    var cats := Categories(products)[1..];
    forall i | 0 <= i < |products| ensures CategoryOf(products[i]) in cats {
      assert products[i].category == CategoryOf(products[i]);
    }
    CountsCover(products, CategoryOf, cats);
    SameSums(cats, products);
  }

  lemma {:induction false} SameSums(cats: seq<string>, products: seq<Product>)
    requires AllTab !in cats
    ensures SumOver(cats, c => |FilterGallery(products, c, "")|) == SumOver(cats, k => CountKey(products, CategoryOf, k))
  {
    if |cats| > 0 {
      SameSums(cats[1..], products);
      TabCount(products, cats[0]);
    }
  }

  /** A category tab with no query shows that category's products. */
  lemma TabCount(products: seq<Product>, c: string)
    requires c != AllTab
    ensures FilterGallery(products, c, "") == Filter(products, KeyIs(CategoryOf, c))
  {
    forall p ensures Shown(c, "")(p) == KeyIs(CategoryOf, c)(p) {
      assert Shown(c, "")(p) == (CategoryMatches(p, c) && QueryMatches(p, ""));
      assert KeyIs(CategoryOf, c)(p) == (CategoryOf(p) == c);
    }
    FilterExt(products, Shown(c, ""), KeyIs(CategoryOf, c));
  }
}
