/** `filteredCategories`: the categories shown for the current search query. */
module Search {
  import opened Wrappers
  import opened Seqs
  import opened Text
  import opened Store

  /** A site matches when its title, url or description, lower-cased,
      contains the lower-cased query; an absent description never matches. */
  predicate SiteMatches(site: Website, query: string) {
    var q := LowerStr(query);
    || Contains(LowerStr(site.title), q)
    || Contains(LowerStr(site.url), q)
    || (site.description.Some? && Contains(LowerStr(site.description.value), q))
  }

  /** The filter callback: an empty query keeps everything; otherwise the
      name or one of the category's sites must match. */
  predicate CategoryMatches(lib: WebsiteLibrary, query: string, category: string) {
    || query == ""
    || Contains(LowerStr(category), LowerStr(query))
    || exists site :: site in SitesOf(lib, category) && SiteMatches(site, query)
  }

  function Matcher(lib: WebsiteLibrary, query: string): string -> bool {
    (c: string) => CategoryMatches(lib, query, c)
  }

  /** The shown categories: an order-preserving subsequence of the display
      order holding exactly the matching names. */
  function FilteredCategories(st: State, query: string): (r: seq<string>)
    ensures |r| <= |st.categories|
    ensures IsSubsequence(r, st.categories)
    ensures forall c :: c in r <==> c in st.categories && CategoryMatches(st.library, query, c)
    ensures forall c :: multiset(r)[c] ==
              if CategoryMatches(st.library, query, c) then multiset(st.categories)[c] else 0
  {
    FilterIsSubsequence(Matcher(st.library, query), st.categories);
    Filter(Matcher(st.library, query), st.categories)
  }

  /** With no query every category is shown, in display order. */
  lemma EmptyQueryShowsAll(st: State)
    ensures FilteredCategories(st, "") == st.categories
  {
    FilterKeepsAll(Matcher(st.library, ""), st.categories);
  }

  /** Under the invariant every shown name is a key of the library, so a
      card's index in the shown list is also an index of the display order. */
  lemma ShownAreKeys(st: State, query: string)
    requires Valid(st)
    ensures forall c :: c in FilteredCategories(st, query) ==> c in st.library
    ensures |FilteredCategories(st, query)| <= |st.categories|
  {
  }

  /** The letter case of the query does not matter. */
  lemma QueryCaseInsensitive(st: State, query: string)
    ensures FilteredCategories(st, query) == FilteredCategories(st, LowerStr(query))
  {
    LowerStrIdempotent(query);
    assert (query == "") == (LowerStr(query) == "");
    forall i | 0 <= i < |st.categories|
      ensures Matcher(st.library, query)(st.categories[i]) == Matcher(st.library, LowerStr(query))(st.categories[i])
    {
      var c := st.categories[i];
      assert forall site :: SiteMatches(site, query) == SiteMatches(site, LowerStr(query));
    }
    FilterCongruent(Matcher(st.library, query), Matcher(st.library, LowerStr(query)), st.categories);
  }

  /** A name with no key counts as a category without sites. */
  lemma MissingKeyMatchesByName(lib: WebsiteLibrary, query: string, category: string)
    requires category !in lib
    ensures CategoryMatches(lib, query, category) <==>
            query == "" || Contains(LowerStr(category), LowerStr(query))
  {
  }

  /** A site without a description matches only through its title or url. */
  lemma NoDescriptionMatchesByTitleOrUrl(site: Website, query: string)
    requires site.description.None?
    ensures SiteMatches(site, query) <==>
            Contains(LowerStr(site.title), LowerStr(query)) || Contains(LowerStr(site.url), LowerStr(query))
  {
  }
}
