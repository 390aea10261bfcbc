/** src/pages/Materials.tsx: the material library filtered by search text and category. */
module MaterialsPage {
  import opened Types
  import Browse
  import Lists

  /** The `filter` predicate: search and category together. */
  predicate Shown(query: string, category: string, m: Material) {
    Browse.MatchesSearch(m.title, m.description, query) && Browse.MatchesCategory(category, m.category)
  }

  /** `filteredMaterials`. */
  function FilteredMaterials(materials: seq<Material>, query: string, category: string): (r: seq<Material>)
    ensures |r| <= |materials|
    ensures forall m :: m in r <==> m in materials && Shown(query, category, m)
  {
    Lists.Filter(materials, m => Shown(query, category, m))
  }

  /** The filtered list keeps the library's order. */
  lemma FilteredKeepsOrder(materials: seq<Material>, query: string, category: string)
    ensures Lists.IsSublist(FilteredMaterials(materials, query, category), materials)
  {
    Lists.FilterIsSublist(materials, m => Shown(query, category, m));
  }

  /** With no search text and "Todos", the whole library is shown. */
  lemma NoFilterShowsAll(materials: seq<Material>)
    ensures FilteredMaterials(materials, "", Browse.AllCategories) == materials
  {
    forall i | 0 <= i < |materials| ensures Shown("", Browse.AllCategories, materials[i]) {
      Browse.EmptyQueryMatches(materials[i].title, materials[i].description);
    }
    Lists.FilterAll(materials, m => Shown("", Browse.AllCategories, m));
  }

  /** The result for one category is an order-preserving sublist of the "Todos" result for the
      same search. */
  lemma CategoryNarrows(materials: seq<Material>, query: string, category: string)
    ensures Lists.IsSublist(FilteredMaterials(materials, query, category), FilteredMaterials(materials, query, Browse.AllCategories))
  {
    Lists.FilterStrongerIsSublist(materials, m => Shown(query, category, m), m => Shown(query, Browse.AllCategories, m));
  }
}
