/**
 * The supply catalogue page: category and text filtering of the product list,
 * grouping by category, the member lock and the product-link rule, and the
 * results count line.
 */
module SupplySuite {
  import opened Wrappers
  import opened Text
  import opened Seqs

  /** A product of the catalogue. */
  datatype Product = Product(
    id: int,
    name: string,
    brand: string,
    category: string,
    description: Option<string>,
    imageUrl: Option<string>,
    productUrl: Option<string>,
    price: Option<string>,
    utility: Option<string>,
    tags: Option<seq<string>>,
    featured: bool,
    memberOnly: bool,
    createdAt: string)

  /** The category buttons: label and filter value; "All" filters on "". */
  const Categories: seq<(string, string)> := [
    ("All", ""), ("Base Coat", "Base Coat"), ("Top Coat", "Top Coat"), ("Colors", "Color"),
    ("Tools", "Tool"), ("Equipment", "Equipment"), ("Specialty", "Specialty"), ("Nail Care", "Nail Care")
  ]

  /** The category filter: the product's category contains the selected value. */
  predicate InCategory(p: Product, category: string) {
    Contains(p.category, category)
  }

  /** The text search: name, brand, description when present, or any tag
      contains the query, ignoring case. */
  predicate MatchesQuery(p: Product, query: string) {
    ContainsIgnoreCase(p.name, query)
    || ContainsIgnoreCase(p.brand, query)
    || (p.description.Some? && ContainsIgnoreCase(p.description.value, query))
    || (p.tags.Some? && exists k :: 0 <= k < |p.tags.value| && ContainsIgnoreCase(p.tags.value[k], query))
  }

  function CategoryFilter(category: string): Product -> bool {
    (p: Product) => InCategory(p, category)
  }

  function QueryFilter(query: string): Product -> bool {
    (p: Product) => MatchesQuery(p, query)
  }

  /** The list `filterProducts` computes: the category step when a category is
      selected, then the search step when a query is typed. */
  function FilteredProducts(products: seq<Product>, category: string, query: string): seq<Product> {
    var byCategory := if category != "" then Filter(products, CategoryFilter(category)) else products;
    if query != "" then Filter(byCategory, QueryFilter(query)) else byCategory
  }

  /** Exactly the products that pass both active filters are kept, in their order. */
  lemma FilteredProductsSpec(products: seq<Product>, category: string, query: string)
    ensures forall p :: p in FilteredProducts(products, category, query) <==>
      p in products && (category == "" || InCategory(p, category)) && (query == "" || MatchesQuery(p, query))
    ensures IsSubsequence(FilteredProducts(products, category, query), products)
  {
    var byCategory := if category != "" then Filter(products, CategoryFilter(category)) else products;
    FilterMembers(products, CategoryFilter(category));
    FilterMembers(byCategory, QueryFilter(query));
    if category != "" && query != "" {
      FilterFilter(products, CategoryFilter(category), QueryFilter(query));
      FilterIsSubsequence(products, Both(CategoryFilter(category), QueryFilter(query)));
    } else if category != "" {
      FilterIsSubsequence(products, CategoryFilter(category));
    } else if query != "" {
      FilterIsSubsequence(products, QueryFilter(query));
    } else {
      FilterAll(products, (p: Product) => true);
      FilterIsSubsequence(products, (p: Product) => true);
    }
  }

  /** With no category and no query the list is the product list. */
  lemma UnfilteredIsAll(products: seq<Product>)
    ensures FilteredProducts(products, "", "") == products
  {
  }

  /** The category match is by substring: any piece of a product's category,
      such as "Tool" of "Tools", keeps the product. */
  lemma ToolKeepsTools(p: Product, i: nat, j: nat)
    requires i <= j <= |p.category|
    ensures InCategory(p, p.category[i..j])
  {
    assert OccursAt(p.category, p.category[i..j], i);
  }

  /** The page state. `products` is what the catalogue request returned. */
  class SupplyPage {
    var products: seq<Product>
    var filteredProducts: seq<Product>
    var selectedCategory: string
    var searchQuery: string
    var isLoading: bool

    /** The initial state: no products, no filter, loading. */
    constructor ()
      ensures products == [] && filteredProducts == []
      ensures selectedCategory == "" && searchQuery == "" && isLoading
    {
      products := [];
      filteredProducts := [];
      selectedCategory := "";
      searchQuery := "";
      isLoading := true;
    }

    /** The catalogue request finished: with an OK reply its data becomes both lists;
        loading ends either way. */
    method FetchFinished(ok: bool, data: seq<Product>)
      modifies this
      ensures !isLoading
      ensures ok ==> products == data && filteredProducts == data
      ensures !ok ==> products == old(products) && filteredProducts == old(filteredProducts)
      ensures selectedCategory == old(selectedCategory) && searchQuery == old(searchQuery)
    {
      if ok {
        products := data;
        filteredProducts := data;
      }
      isLoading := false;
    }

    /** `filterProducts`: narrows the list one active filter at a time. */
    method FilterProducts()
      modifies this
      ensures filteredProducts == FilteredProducts(products, selectedCategory, searchQuery)
      ensures products == old(products) && isLoading == old(isLoading)
      ensures selectedCategory == old(selectedCategory) && searchQuery == old(searchQuery)
    {
      var filtered := products;
      if selectedCategory != "" {
        filtered := Filter(filtered, CategoryFilter(selectedCategory));
      }
      if searchQuery != "" {
        filtered := Filter(filtered, QueryFilter(searchQuery));
      }
      filteredProducts := filtered;
    }

    /** Choosing a category button; the filter effect runs after it. */
    method SelectCategory(value: string)
      modifies this
      ensures selectedCategory == value
      ensures filteredProducts == FilteredProducts(products, value, searchQuery)
      ensures products == old(products) && searchQuery == old(searchQuery) && isLoading == old(isLoading)
    {
      selectedCategory := value;
      FilterProducts();
    }

    /** Typing in the search box; the filter effect runs after it. */
    method SetQuery(query: string)
      modifies this
      ensures searchQuery == query
      ensures filteredProducts == FilteredProducts(products, selectedCategory, query)
      ensures products == old(products) && selectedCategory == old(selectedCategory) && isLoading == old(isLoading)
    {
      searchQuery := query;
      FilterProducts();
    }
  }

  function CategoryOf(p: Product): string {
    p.category
  }

  /** Some product's category is a name a plain object inherits. */
  predicate HasInheritedCategory(filtered: seq<Product>) {
    exists k :: 0 <= k < |filtered| && filtered[k].category in ObjectPrototypeNames
  }

  /** The `groupedProducts` reduce: one group per exact category, in the order
      categories first appear, each holding its products in list order. It
      throws (`None`) when a category is a name the accumulator `{}` inherits. */
  method GroupedProducts(filtered: seq<Product>) returns (groups: Option<seq<Group<string, Product>>>)
    ensures groups.None? <==> HasInheritedCategory(filtered)
    ensures groups.Some? ==> groups.value == GroupBy(filtered, CategoryOf)
    ensures groups.Some? ==> Keys(groups.value) == Distinct(MapSeq(filtered, CategoryOf))
    ensures groups.Some? ==> TotalSize(groups.value) == |filtered|
    ensures groups.Some? ==> forall j :: 0 <= j < |groups.value| ==>
      groups.value[j].items == Filter(filtered, KeyIs(CategoryOf, groups.value[j].key))
  {
    groups := GroupInto(filtered, CategoryOf, ObjectPrototypeNames);
    GroupByKeys(filtered, CategoryOf);
    GroupBySize(filtered, CategoryOf);
    GroupByItems(filtered, CategoryOf);
  }

  /** What the product list area shows: a flat grid while a filter is active,
      the category sections otherwise. The grouping runs on every render, so a
      product whose category is an inherited name crashes the page either way. */
  datatype Listing = Flat(items: seq<Product>) | Sections(groups: seq<Group<string, Product>>) | Crashed

  function ListingOf(filtered: seq<Product>, category: string, query: string): (l: Listing)
    ensures l.Crashed? <==> HasInheritedCategory(filtered)
    ensures !l.Crashed? ==> (l.Flat? <==> category != "" || query != "")
    ensures l.Flat? ==> l.items == filtered
    ensures l.Sections? ==> l.groups == GroupBy(filtered, CategoryOf)
  {
    if HasInheritedCategory(filtered) then Crashed
    else if category != "" || query != "" then Flat(filtered)
    else Sections(GroupBy(filtered, CategoryOf))
  }

  /** The empty-state note and the results count both read the filtered length. */
  predicate ShowsEmptyNote(filtered: seq<Product>) {
    |filtered| == 0
  }

  /** `isLocked`: a members-only product seen by a visitor who is not signed in. */
  predicate IsLocked(p: Product, isAuthenticated: bool) {
    p.memberOnly && !isAuthenticated
  }

  /** The action area of the product dialog. */
  datatype LinkArea = BecomeMember | ProductLink(url: string) | NoLink

  function LinkAreaOf(p: Product, isAuthenticated: bool): LinkArea {
    if IsLocked(p, isAuthenticated) then BecomeMember
    else if Truthy(p.productUrl) && p.productUrl.value != "#" then ProductLink(p.productUrl.value)
    else NoLink
  }

  /** The membership prompt shows exactly for a locked product; the product link
      exactly when the product is not locked and has a real URL. */
  lemma LinkAreaRule(p: Product, isAuthenticated: bool)
    ensures LinkAreaOf(p, isAuthenticated) == BecomeMember <==> p.memberOnly && !isAuthenticated
    ensures LinkAreaOf(p, isAuthenticated).ProductLink? <==>
      !IsLocked(p, isAuthenticated) && p.productUrl.Some? && p.productUrl.value != "" && p.productUrl.value != "#"
    ensures LinkAreaOf(p, isAuthenticated).ProductLink? ==> LinkAreaOf(p, isAuthenticated).url == p.productUrl.value
  {
  }

  /** The results line: "<n> Product Found" for one product, "<n> Products Found" otherwise. */
  function ResultsLabel(count: int): string {
    CountLabel(count, "Product")
  }
}
