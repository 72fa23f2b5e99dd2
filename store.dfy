/** The bookmark library of `AppContent`: a mapping from category name to
    its list of websites, plus the display order of the category names.
    Each handler is a function from the previous state to the next one. */
module Store {
  import opened Wrappers
  import opened Seqs

  /** A bookmarked site. The description is optional in the record type;
      the add-website dialog always supplies one, possibly empty. */
  datatype Website = Website(id: string, title: string, url: string, description: Option<string>)

  type WebsiteLibrary = map<string, seq<Website>>

  datatype State = State(library: WebsiteLibrary, categories: seq<string>)

  /** What `handleDeleteWebsite` throws on: reading `filter` of an absent list. */
  datatype StoreError = MissingCategory(category: string)

  /** The display order lists every key of the library exactly once and
      nothing else. */
  ghost predicate Valid(st: State) {
    forall c :: multiset(st.categories)[c] == if c in st.library then 1 else 0
  }

  /** The same invariant in its two familiar halves. */
  lemma ValidMeans(st: State)
    ensures Valid(st) <==>
            NoDup(st.categories) && forall c :: c in st.categories <==> c in st.library
  {
  }

  /** `prev[category] || []`: the list of a key, the empty list for an absent key. */
  function SitesOf(lib: WebsiteLibrary, category: string): (r: seq<Website>)
    ensures category in lib ==> r == lib[category]
    ensures category !in lib ==> r == []
  {
    if category in lib then lib[category] else []
  }

  /** The seed data the app starts with. */
  function InitialLibrary(): WebsiteLibrary {
    map[
      "Development" := [
        Website("1", "GitHub", "https://github.com",
                Some("Version control and collaboration platform for developers")),
        Website("2", "Stack Overflow", "https://stackoverflow.com",
                Some("Q&A community for programmers")),
        Website("3", "MDN Web Docs", "https://developer.mozilla.org",
                Some("Comprehensive web development documentation"))],
      "Design" := [
        Website("4", "Figma", "https://figma.com", Some("Collaborative interface design tool")),
        Website("5", "Dribbble", "https://dribbble.com", Some("Design inspiration and portfolio showcase"))],
      "Productivity" := [
        Website("6", "Notion", "https://notion.so", Some("All-in-one workspace for notes and collaboration")),
        Website("7", "Trello", "https://trello.com", Some("Visual project management boards"))],
      "Learning" := [
        Website("8", "Coursera", "https://coursera.org", Some("Online courses from top universities"))]
    ]
  }

  /** The initial library with its keys in insertion order, as `Object.keys` lists them. */
  function Initial(): (st: State)
    ensures Valid(st)
  {
    var st := State(InitialLibrary(), ["Development", "Design", "Productivity", "Learning"]);
    assert forall c :: c in st.library <==> c in st.categories;
    st
  }

  /** `handleAddNewWebsite`: append a new record (with the caller's id) to the
      category's list, creating the key when it is absent. The dialog only
      submits a non-empty title and url. */
  function AddNewWebsite(st: State, category: string, title: string, url: string,
                         description: string, id: string): (r: State)
    requires title != "" && url != ""
    ensures r.categories == st.categories
    ensures r.library.Keys == st.library.Keys + {category}
    ensures |r.library[category]| == |SitesOf(st.library, category)| + 1
    ensures r.library[category][..|SitesOf(st.library, category)|] == SitesOf(st.library, category)
    ensures r.library[category][|SitesOf(st.library, category)|] == Website(id, title, url, Some(description))
    ensures forall c :: c in st.library && c != category ==> r.library[c] == st.library[c]
  {
    var sites := SitesOf(st.library, category) + [Website(id, title, url, Some(description))];
    State(st.library[category := sites], st.categories)
  }

  /** The filter callback of `handleDeleteWebsite`: records with another id survive. */
  function OtherId(id: string): Website -> bool {
    (site: Website) => site.id != id
  }

  /** The filter callback of `handleDeleteCategory`: names other than this one survive. */
  function OtherName(name: string): string -> bool {
    (c: string) => c != name
  }

  /** `handleDeleteWebsite`: drop every record with this id from one
      category's list; an absent category makes the handler throw. */
  function DeleteWebsite(st: State, id: string, category: string): (r: Result<State, StoreError>)
    ensures r.Err? <==> category !in st.library
    ensures r.Err? ==> r.error == MissingCategory(category)
    ensures r.Ok? ==> r.value.categories == st.categories
    ensures r.Ok? ==> r.value.library.Keys == st.library.Keys
    ensures r.Ok? ==> forall c :: c in st.library && c != category ==> r.value.library[c] == st.library[c]
    ensures r.Ok? ==> forall w :: w in r.value.library[category] <==> w in st.library[category] && w.id != id
    ensures r.Ok? ==> forall w :: multiset(r.value.library[category])[w] ==
                        if w.id != id then multiset(st.library[category])[w] else 0
    ensures r.Ok? ==> IsSubsequence(r.value.library[category], st.library[category])
  {
    if category !in st.library then Err(MissingCategory(category))
    else
      FilterIsSubsequence(OtherId(id), st.library[category]);
      Ok(State(st.library[category := Filter(OtherId(id), st.library[category])], st.categories))
  }

  /** `handleDeleteCategory`: drop the key with its websites and every
      occurrence of the name from the display order. */
  function DeleteCategory(st: State, name: string): (r: State)
    ensures name !in r.library && name !in r.categories
    ensures r.library.Keys == st.library.Keys - {name}
    ensures forall c :: c in r.library ==> r.library[c] == st.library[c]
    ensures forall c :: c != name ==> multiset(r.categories)[c] == multiset(st.categories)[c]
    ensures IsSubsequence(r.categories, st.categories)
  {
    FilterIsSubsequence(OtherName(name), st.categories);
    State(st.library - {name}, Filter(OtherName(name), st.categories))
  }

  /** `handleAddCategory`: a non-empty name that is not yet a key gets an
      empty list and goes to the end of the display order; otherwise
      nothing changes. */
  function AddCategory(st: State, name: string): (r: State)
    ensures name == "" || name in st.library ==> r == st
    ensures name != "" && name !in st.library ==>
              && r.library.Keys == st.library.Keys + {name}
              && r.library[name] == []
              && (forall c :: c in st.library ==> r.library[c] == st.library[c])
              && r.categories == st.categories + [name]
  {
    if name != "" && name !in st.library then State(st.library[name := []], st.categories + [name])
    else st
  }

  /** `handleMoveCard`: take the name at `dragIndex` out of the display order
      and put it back at `hoverIndex`; the library is not touched. */
  function MoveCard(st: State, dragIndex: nat, hoverIndex: nat): (r: State)
    requires dragIndex < |st.categories| && hoverIndex < |st.categories|
    ensures r.library == st.library
    ensures |r.categories| == |st.categories|
    ensures multiset(r.categories) == multiset(st.categories)
    ensures r.categories[hoverIndex] == st.categories[dragIndex]
  {
    State(st.library, Move(st.categories, dragIndex, hoverIndex))
  }

  // ---- Properties of the handlers ----

  lemma AddCategoryTwice(st: State, name: string)
    ensures AddCategory(AddCategory(st, name), name) == AddCategory(st, name)
  {
  }

  lemma AddCategoryKeepsValid(st: State, name: string)
    requires Valid(st)
    ensures Valid(AddCategory(st, name))
  {
    var r := AddCategory(st, name);
    if name != "" && name !in st.library {
      assert forall c :: multiset(r.categories)[c] == multiset(st.categories)[c] + multiset([name])[c];
    }
  }

  lemma DeleteCategoryKeepsValid(st: State, name: string)
    requires Valid(st)
    ensures Valid(DeleteCategory(st, name))
  {
  }

  lemma DeleteCategoryTwice(st: State, name: string)
    ensures DeleteCategory(DeleteCategory(st, name), name) == DeleteCategory(st, name)
  {
    FilterIdempotent(OtherName(name), st.categories);
  }

  lemma MoveCardKeepsValid(st: State, dragIndex: nat, hoverIndex: nat)
    requires Valid(st)
    requires dragIndex < |st.categories| && hoverIndex < |st.categories|
    ensures Valid(MoveCard(st, dragIndex, hoverIndex))
  {
  }

  /** The dragged name lands on `hoverIndex`; the names between the two
      positions shift by one and all others keep their place. */
  lemma MoveCardPositions(st: State, dragIndex: nat, hoverIndex: nat, i: nat)
    requires dragIndex < |st.categories| && hoverIndex < |st.categories| && i < |st.categories|
    ensures MovedFrom(dragIndex, hoverIndex, i) < |st.categories|
    ensures MoveCard(st, dragIndex, hoverIndex).categories[i] ==
            st.categories[MovedFrom(dragIndex, hoverIndex, i)]
  {
    MoveAt(st.categories, dragIndex, hoverIndex, i);
  }

  lemma MoveCardSamePlace(st: State, i: nat)
    requires i < |st.categories|
    ensures MoveCard(st, i, i) == st
  {
    MoveSamePlace(st.categories, i);
  }

  lemma MoveCardUndo(st: State, dragIndex: nat, hoverIndex: nat)
    requires dragIndex < |st.categories| && hoverIndex < |st.categories|
    ensures MoveCard(MoveCard(st, dragIndex, hoverIndex), hoverIndex, dragIndex) == st
  {
    MoveInverse(st.categories, dragIndex, hoverIndex);
  }

  lemma DeleteWebsiteKeepsValid(st: State, id: string, category: string)
    requires Valid(st)
    ensures DeleteWebsite(st, id, category).Ok? ==> Valid(DeleteWebsite(st, id, category).value)
  {
  }

  /** Deleting the same id from the same category twice is deleting it once. */
  lemma DeleteWebsiteTwice(st: State, id: string, category: string)
    requires category in st.library
    ensures DeleteWebsite(DeleteWebsite(st, id, category).value, id, category) == DeleteWebsite(st, id, category)
  {
    var kept := Filter(OtherId(id), st.library[category]);
    var once := State(st.library[category := kept], st.categories);
    assert DeleteWebsite(st, id, category) == Ok(once);
    FilterIdempotent(OtherId(id), st.library[category]);
    assert once.library[category := kept] == once.library;
    assert DeleteWebsite(once, id, category) == Ok(once);
  }

  /** A category that holds no record with the id is left as it is. */
  lemma DeleteWebsiteAbsentId(st: State, id: string, category: string)
    requires category in st.library
    requires forall w :: w in st.library[category] ==> w.id != id
    ensures DeleteWebsite(st, id, category) == Ok(st)
  {
    FilterKeepsAll(OtherId(id), st.library[category]);
    assert st.library[category := st.library[category]] == st.library;
  }

  /** Adding a website keeps the invariant exactly when its category is
      already a key: an absent one becomes a key the display order lacks. */
  lemma AddNewWebsiteValid(st: State, category: string, title: string, url: string,
                           description: string, id: string)
    requires Valid(st) && title != "" && url != ""
    ensures Valid(AddNewWebsite(st, category, title, url, description, id)) <==> category in st.library
  {
    var r := AddNewWebsite(st, category, title, url, description, id);
    if category !in st.library {
      assert multiset(r.categories)[category] == 0;
    }
  }

  /** The seed with one more site added to "Design". */
  function SeedPlusFigma2(id: string): State {
    AddNewWebsite(Initial(), "Design", "Figma2", "https://figma2.com", "", id)
  }

  /** From the seed: a third site added to "Design" goes at the end of its
      list, and deleting "Design" afterwards removes it with all its sites
      while "Development" keeps its list. */
  lemma SeedScenario(id: string)
    ensures |SeedPlusFigma2(id).library["Design"]| == 3
    ensures SeedPlusFigma2(id).library["Design"][2] == Website(id, "Figma2", "https://figma2.com", Some(""))
    ensures "Design" !in DeleteCategory(SeedPlusFigma2(id), "Design").library
    ensures DeleteCategory(SeedPlusFigma2(id), "Design").library["Development"] == Initial().library["Development"]
    ensures "Design" !in DeleteCategory(SeedPlusFigma2(id), "Design").categories
  {
  }
}
