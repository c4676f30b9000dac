/** The dashboard's help page: its built-in FAQ list, the search and
    category filter over it, and the per-category counts. */
module HelpFaq {
  import opened Seqs
  import opened Text

  datatype Faq = Faq(id: int, question: string, answer: string, category: string)

  const Categories: seq<string> := ["products", "orders", "customers", "analytics", "account"]

  /** The list the page ships with. */
  const BuiltInFaqs: seq<Faq> := [
    Faq(1, "How do I add a new product?",
        "To add a new product, navigate to the Products page and click the \"Add Product\" button in the top right corner. Fill out the product details form and click \"Save\" to create the new product.",
        "products"),
    Faq(2, "How do I update an order status?",
        "To update an order status, go to the Orders page, find the order you want to update, and click on the status chip. A dropdown menu will appear with available status options. Select the new status and it will be updated immediately.",
        "orders"),
    Faq(3, "How do I view customer details?",
        "To view customer details, navigate to the Customers page and click on the customer name or the \"View\" button for the customer you want to see. This will take you to the customer details page with all their information and order history.",
        "customers"),
    Faq(4, "How do I export reports?",
        "To export reports, go to the Analytics page and use the export buttons available for each chart or table. You can export data in various formats including CSV, Excel, and PDF.",
        "analytics"),
    Faq(5, "How do I change my password?",
        "To change your password, go to the Settings page and select the \"Security\" tab. Enter your current password and your new password twice, then click \"Change Password\" to update it.",
        "account"),
    Faq(6, "How do I enable dark mode?",
        "To enable dark mode, click on your profile icon in the top right corner and select \"Dark Mode\" from the dropdown menu. Alternatively, you can go to Settings > Appearance and toggle the dark mode switch.",
        "account"),
    Faq(7, "How do I filter products by category?",
        "To filter products by category, go to the Products page and use the category dropdown in the filters section. Select the desired category and the product list will update automatically.",
        "products"),
    Faq(8, "How do I search for a specific order?",
        "To search for a specific order, go to the Orders page and use the search bar at the top. You can search by order ID, customer name, or product name. Enter your search term and press Enter or click the search button.",
        "orders")]

  /** The search half of the filter: the term, ignoring case, occurs in the
      question or the answer. */
  predicate MatchesSearch(f: Faq, term: string) {
    ContainsIgnoreCase(f.question, term) || ContainsIgnoreCase(f.answer, term)
  }

  /** The category half: the `'all'` tab or the FAQ's own category. */
  predicate MatchesCategory(f: Faq, active: string) {
    active == "all" || f.category == active
  }

  function Shown(term: string, active: string): Faq -> bool {
    f => MatchesSearch(f, term) && MatchesCategory(f, active)
  }

  /** `filteredFaqs`: the FAQs passing both halves, in list order. */
  function FilteredFaqs(faqs: seq<Faq>, term: string, active: string): (r: seq<Faq>)
    ensures forall f :: f in r <==> f in faqs && MatchesSearch(f, term) && MatchesCategory(f, active)
    ensures IsSubseq(r, faqs)
  {
    FilterIsSubseq(faqs, Shown(term, active));
    Filter(faqs, Shown(term, active))
  }

  /** An empty search on the `'all'` tab shows every FAQ, and an empty search
      on a category tab shows exactly that category's FAQs. */
  lemma EmptySearchShowsCategory(faqs: seq<Faq>, active: string)
    ensures FilteredFaqs(faqs, "", "all") == faqs
    ensures active != "all" ==>
      FilteredFaqs(faqs, "", active) == Filter(faqs, KeyIs((f: Faq) => f.category, active))
  {
    forall f: Faq ensures MatchesSearch(f, "") {
      ContainsEmpty(Lower(f.question));
    }
    FilterAll(faqs, Shown("", "all"));
    if active != "all" {
      FilterExt(faqs, Shown("", active), KeyIs((f: Faq) => f.category, active));
    }
  }

  /** `categoryCounts`: `all` is the list length, each category its number
      of FAQs. */
  function CategoryCounts(faqs: seq<Faq>): (m: map<string, nat>)
    ensures "all" in m && m["all"] == |faqs|
    ensures forall c | c in Categories :: c in m && m[c] == CountKey(faqs, (f: Faq) => f.category, c)
    ensures m.Keys == {"all"} + set c | c in Categories
  {
    var key := (f: Faq) => f.category;
    map["all" := |faqs|,
        "products" := CountKey(faqs, key, "products"),
        "orders" := CountKey(faqs, key, "orders"),
        "customers" := CountKey(faqs, key, "customers"),
        "analytics" := CountKey(faqs, key, "analytics"),
        "account" := CountKey(faqs, key, "account")]
  }

  /** When every FAQ belongs to one of the five categories, the five
      counts add up to the `all` count. */
  lemma CategoryCountsAddUp(faqs: seq<Faq>)
    requires forall i | 0 <= i < |faqs| :: faqs[i].category in Categories
    ensures var m := CategoryCounts(faqs);
      m["products"] + m["orders"] + m["customers"] + m["analytics"] + m["account"] == m["all"]
  {
    var key := (f: Faq) => f.category;
    var m := CategoryCounts(faqs);
    assert NoDup(Categories);
    CountsCover(faqs, key, Categories);
    assert SumOver(Categories, k => CountKey(faqs, key, k))
      == m["products"] + m["orders"] + m["customers"] + m["analytics"] + m["account"];
  }

  /** The shipped list satisfies that: its five tabs add up to its eight FAQs. */
  lemma BuiltInCountsAddUp()
    ensures var m := CategoryCounts(BuiltInFaqs);
      m["all"] == 8
      && m["products"] + m["orders"] + m["customers"] + m["analytics"] + m["account"] == m["all"]
  {
    assert forall i | 0 <= i < |BuiltInFaqs| :: BuiltInFaqs[i].category in Categories;
    CategoryCountsAddUp(BuiltInFaqs);
  }
}
