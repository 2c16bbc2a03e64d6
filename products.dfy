/**
 * `src/components/sections/Products.tsx`: the catalogue filtered by the store's selected category,
 * the section title and the empty state. The catalogue module `@/data/products` is not part of
 * this model; the catalogue is a parameter.
 */
module Products {
  import opened Seqs
  import opened Store

  /** `filteredProducts`: the whole catalogue for 'all', the products of that category otherwise. */
  function FilteredProducts(catalog: seq<Product>, category: string): seq<Product> {
    if category == "all" then catalog
    else Filter(catalog, (p: Product) => p.category == category)
  }

  /** 'all' gives the catalogue unchanged; another category gives exactly that category's products,
      in catalogue order, never more than the catalogue holds. */
  lemma FilteredProductsSpec(catalog: seq<Product>, category: string)
    ensures category == "all" ==> FilteredProducts(catalog, category) == catalog
    ensures category != "all" ==>
              forall p :: p in FilteredProducts(catalog, category) <==> p in catalog && p.category == category
    ensures IsSubsequence(FilteredProducts(catalog, category), catalog)
    ensures |FilteredProducts(catalog, category)| <= |catalog|
  {
    if category != "all" {
      FilterIsSubsequence(catalog, (p: Product) => p.category == category);
    } else {
      SubsequenceRefl(catalog);
    }
  }

  /** The "no products found" block is shown exactly when the filtered list is empty. */
  predicate ShowsEmptyState(catalog: seq<Product>, category: string) {
    |FilteredProducts(catalog, category)| == 0
  }

  /** The empty state appears iff no product of the catalogue has the selected category (or, for
      'all', iff the catalogue is empty). */
  lemma EmptyStateIffNoMatch(catalog: seq<Product>, category: string)
    ensures category == "all" ==> (ShowsEmptyState(catalog, category) <==> catalog == [])
    ensures category != "all" ==>
              (ShowsEmptyState(catalog, category) <==> forall p :: p in catalog ==> p.category != category)
  {
    FilteredProductsSpec(catalog, category);
    if category != "all" && !ShowsEmptyState(catalog, category) {
      assert FilteredProducts(catalog, category)[0] in FilteredProducts(catalog, category);
    }
  }

  /** `getCategoryTitle`. */
  function CategoryTitle(category: string): (r: string)
    ensures r == "Товары" <==> category !in ["all", "home", "games", "jewelry", "tools", "robotics"]
  {
    match category
    case "all" => "Все товары"
    case "home" => "Товары для дома"
    case "games" => "Игры и фигурки"
    case "jewelry" => "Украшения"
    case "tools" => "Инструменты"
    case "robotics" => "Робототехника"
    case _ => "Товары"
  }

  /** The six filter values get six different titles. */
  lemma CategoryTitlesDistinct(a: string, b: string)
    requires a in ["all", "home", "games", "jewelry", "tools", "robotics"]
    requires b in ["all", "home", "games", "jewelry", "tools", "robotics"]
    ensures CategoryTitle(a) == CategoryTitle(b) <==> a == b
  {
  }
}
