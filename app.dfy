/** `AppContent`: the two state cells `library` and `categories`, the
    add-website dialog's target, and the drag-and-drop provider's active
    drag, with the handlers that replace them. */
module App {
  import opened Wrappers
  import opened Seqs
  import opened Store
  import opened Search
  import opened DragMonitor
  import opened DragItems
  import DeleteDropZone

  /** The props a category card is rendered with: its category and its
      position in the shown list. */
  datatype Card = Card(category: string, index: nat)

  /** The cards rendered for a query, one per shown category, indexed by
      position in the shown list. */
  function Cards(st: State, query: string): (cards: seq<Card>)
    ensures |cards| == |FilteredCategories(st, query)|
  {
    var shown := FilteredCategories(st, query);
    seq(|shown|, i requires 0 <= i < |shown| => Card(shown[i], i))
  }

  /** Every rendered card names a key of the library, and its index, although
      a position in the shown list, is a valid position of the display order. */
  lemma CardsInRange(st: State, query: string)
    requires Store.Valid(st)
    ensures forall card :: card in Cards(st, query) ==>
              card.index < |st.categories| && card.category in st.library
  {
    var shown := FilteredCategories(st, query);
    forall card | card in Cards(st, query)
      ensures card.index < |st.categories| && card.category in st.library
    {
      var i :| 0 <= i < |Cards(st, query)| && Cards(st, query)[i] == card;
      assert shown[i] in shown;
    }
  }

  /** Without a query the card at position i shows the i-th category of the
      display order, so the hover indices name the cards the pointer crosses. */
  lemma CardsWithoutQuery(st: State)
    ensures |Cards(st, "")| == |st.categories|
    ensures forall i :: 0 <= i < |st.categories| ==> Cards(st, "")[i] == Card(st.categories[i], i)
  {
    EmptyQueryShowsAll(st);
  }

  /** A three-category store whose names differ after their first letter. */
  function ThreeCategories(): State {
    State(map["x" := [], "ab" := [], "ac" := []], ["x", "ab", "ac"])
  }

  lemma QueryAMatches(lib: WebsiteLibrary)
    requires lib == ThreeCategories().library
    ensures !Matcher(lib, "a")("x")
    ensures Matcher(lib, "a")("ab")
    ensures Matcher(lib, "a")("ac")
  {
    Text.ContainsAt("x", "a");
    assert Text.StartsWith("ab", "a");
    assert Text.StartsWith("ac", "a");
  }

  lemma ShownForQueryA(st: State)
    requires st == ThreeCategories()
    ensures FilteredCategories(st, "a") == ["ab", "ac"]
  {
    var p := Matcher(st.library, "a");
    QueryAMatches(st.library);
    Seqs.FilterCons(p, "ac", []);
    assert Filter(p, ["ac"]) == ["ac"];
    Seqs.FilterCons(p, "ab", ["ac"]);
    assert Filter(p, ["ab", "ac"]) == ["ab", "ac"];
    Seqs.FilterCons(p, "x", ["ab", "ac"]);
    assert st.categories == ["x"] + ["ab", "ac"];
    assert Filter(p, st.categories) == ["ab", "ac"];
  }

  /** With a query the shown list is shorter, and a card's index, which
      `handleMoveCard` applies to the full display order, can name another
      category there: here the card "ac" has index 1, where "ab" stands. */
  lemma CardIndexUnderQuery()
    ensures Cards(ThreeCategories(), "a")[1] == Card("ac", 1)
    ensures ThreeCategories().categories[1] == "ab"
  {
    ShownForQueryA(ThreeCategories());
  }

  class AppContent {
    var library: WebsiteLibrary
    var categories: seq<string>
    var selectedCategory: string
    var dialogOpen: bool
    var drag: Drag

    /** The store value the two state cells hold together. */
    function Snapshot(): State
      reads this
    {
      State(library, categories)
    }

    ghost predicate Valid()
      reads this
    {
      Store.Valid(Snapshot())
    }

    function IsWebsiteDragging(): bool
      reads this
    {
      Flags(drag).isWebsiteDragging
    }

    function IsCategoryDragging(): bool
      reads this
    {
      Flags(drag).isCategoryDragging
    }

    /** The payload object a category drag shares with the cards. */
    function DraggedItem(): set<object>
      reads this
    {
      if drag.DraggingCategory? then {drag.item} else {}
    }

    /** The payload's `index` is the dragged category's position in the
        display order. */
    ghost predicate TracksDraggedCategory()
      reads this, DraggedItem()
    {
      drag.DraggingCategory? ==>
        drag.item.index < |categories| && categories[drag.item.index] == drag.item.category
    }

    constructor ()
      ensures Valid()
      ensures Snapshot() == Initial()
      ensures selectedCategory == "" && !dialogOpen && drag == Idle
    {
      library := Initial().library;
      categories := Initial().categories;
      selectedCategory := "";
      dialogOpen := false;
      drag := Idle;
    }

    /** `handleAddWebsite`: open the dialog for a category. */
    method HandleAddWebsite(category: string)
      modifies this`selectedCategory, this`dialogOpen
      ensures selectedCategory == category && dialogOpen
    {
      selectedCategory := category;
      dialogOpen := true;
    }

    method HandleAddNewWebsite(category: string, title: string, url: string, description: string, id: string)
      requires Valid()
      requires title != "" && url != ""
      modifies this`library
      ensures Snapshot() == AddNewWebsite(old(Snapshot()), category, title, url, description, id)
      ensures Valid() <==> category in old(library)
    {
      var next := AddNewWebsite(Snapshot(), category, title, url, description, id);
      AddNewWebsiteValid(Snapshot(), category, title, url, description, id);
      library := next.library;
    }

    /** Returns false, leaving the state as it was, where the source throws. */
    method HandleDeleteWebsite(id: string, category: string) returns (ok: bool)
      requires Valid()
      modifies this`library
      ensures Valid()
      ensures ok <==> category in old(library)
      ensures ok ==> Snapshot() == DeleteWebsite(old(Snapshot()), id, category).value
      ensures !ok ==> library == old(library)
    {
      var next := DeleteWebsite(Snapshot(), id, category);
      DeleteWebsiteKeepsValid(Snapshot(), id, category);
      ok := next.Ok?;
      if ok {
        library := next.value.library;
      }
    }

    method HandleDeleteCategory(name: string)
      requires Valid()
      modifies this`library, this`categories
      ensures Valid()
      ensures Snapshot() == DeleteCategory(old(Snapshot()), name)
    {
      var next := DeleteCategory(Snapshot(), name);
      DeleteCategoryKeepsValid(Snapshot(), name);
      library, categories := next.library, next.categories;
    }

    method HandleAddCategory(name: string)
      requires Valid()
      modifies this`library, this`categories
      ensures Valid()
      ensures Snapshot() == AddCategory(old(Snapshot()), name)
    {
      var next := AddCategory(Snapshot(), name);
      AddCategoryKeepsValid(Snapshot(), name);
      library, categories := next.library, next.categories;
    }

    method HandleMoveCard(dragIndex: nat, hoverIndex: nat)
      requires Valid()
      requires dragIndex < |categories| && hoverIndex < |categories|
      modifies this`categories
      ensures Valid()
      ensures Snapshot() == MoveCard(old(Snapshot()), dragIndex, hoverIndex)
    {
      var next := MoveCard(Snapshot(), dragIndex, hoverIndex);
      MoveCardKeepsValid(Snapshot(), dragIndex, hoverIndex);
      categories := next.categories;
    }

    /** A drag source starts a drag; the provider allows one at a time. */
    method BeginDrag(d: Drag)
      requires drag.Idle?
      modifies this`drag
      ensures drag == d
    {
      drag := d;
    }

    /** The drag ends, on a drop or a cancel: the slot empties and both
        flags of `useIsDragging` fall. */
    method EndDrag()
      modifies this`drag
      ensures drag == Idle
      ensures !IsWebsiteDragging() && !IsCategoryDragging()
    {
      drag := Idle;
    }

    /** A drop on the delete zone, which is mounted only while a category is
        dragged, deletes the dragged category and changes nothing else. */
    method DropOnDeleteZone()
      requires Valid()
      modifies this`library, this`categories
      ensures Valid()
      ensures old(IsCategoryDragging()) ==>
                Snapshot() == DeleteCategory(old(Snapshot()), old(drag).item.category)
      ensures old(IsCategoryDragging()) ==>
                old(drag).item.category !in library && old(drag).item.category !in categories
      ensures !old(IsCategoryDragging()) ==> Snapshot() == old(Snapshot())
    {
      if IsCategoryDragging() {
        var name := DeleteDropZone.OnDropArgument(drag);
        HandleDeleteCategory(name.value);
      }
    }
  }
}
