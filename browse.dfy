/** The search box and category chips shared by the course and material catalogues
    (src/pages/Courses.tsx, src/pages/Materials.tsx). */
module Browse {
  import Text

  const AllCategories := "Todos"

  /** `title.toLowerCase().includes(query.toLowerCase()) || description.toLowerCase().includes(query.toLowerCase())`. */
  predicate MatchesSearch(title: string, description: string, query: string) {
    Text.Contains(Text.Lower(title), Text.Lower(query)) || Text.Contains(Text.Lower(description), Text.Lower(query))
  }

  /** `selectedCategory === 'Todos' || category === selectedCategory`. */
  predicate MatchesCategory(selected: string, category: string) {
    selected == AllCategories || category == selected
  }

  /** An empty search box matches everything. */
  lemma EmptyQueryMatches(title: string, description: string)
    ensures MatchesSearch(title, description, "")
  {
    Text.ContainsEmpty(Text.Lower(title));
  }

  /** The query's case does not matter: searching for its lower-cased form gives the same answer. */
  lemma SearchIgnoresQueryCase(title: string, description: string, query: string)
    ensures MatchesSearch(title, description, Text.Lower(query)) == MatchesSearch(title, description, query)
  {
    Text.LowerIdempotent(query);
  }
}
