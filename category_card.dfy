/** `CategoryCard`: each card is a drag source for its category, a hover
    target that reorders categories, and, on its add button, a drop target
    that deletes websites. */
module CategoryCard {
  import opened Wrappers
  import opened Store
  import opened DragItems
  import opened App

  /** Starting to drag a card hands out a fresh payload holding the card's
      category and index. */
  method BeginCategoryDrag(app: AppContent, card: Card) returns (item: CategoryItem)
    requires app.drag.Idle?
    modifies app`drag
    ensures fresh(item) && item.category == card.category && item.index == card.index
    ensures app.drag == DraggingCategory(item)
  {
    item := new CategoryItem(card.category, card.index);
    app.BeginDrag(DraggingCategory(item));
  }

  /** The reorder target accepts category drags only. When the payload's
      index differs from the card's, the dragged position moves to the card's
      and the payload is told its new index; otherwise nothing happens. */
  method Hover(app: AppContent, card: Card)
    requires app.Valid()
    requires card.index < |app.categories|
    requires app.drag.DraggingCategory? ==> app.drag.item.index < |app.categories|
    modifies app`categories, app.DraggedItem()
    ensures app.Valid()
    ensures app.drag == old(app.drag) && app.library == old(app.library)
    ensures old(app.drag.DraggingCategory? && app.drag.item.index != card.index) ==>
              && app.Snapshot() == MoveCard(old(app.Snapshot()), old(app.drag.item.index), card.index)
              && app.drag.item.index == card.index
    ensures !old(app.drag.DraggingCategory? && app.drag.item.index != card.index) ==>
              app.categories == old(app.categories) && unchanged(app.DraggedItem())
    ensures old(app.TracksDraggedCategory()) ==> app.TracksDraggedCategory()
  {
    if app.drag.DraggingCategory? {
      var item := app.drag.item;
      if item.index != card.index {
        app.HandleMoveCard(item.index, card.index);
        item.index := card.index;
      }
    }
  }

  /** The pointer crosses the same card twice: the second hover finds the
      payload already at the card's index and leaves everything as the first
      one left it. */
  method HoverSameCardTwice(app: AppContent, card: Card) returns (afterFirst: seq<string>)
    requires app.Valid()
    requires card.index < |app.categories|
    requires app.drag.DraggingCategory? ==> app.drag.item.index < |app.categories|
    modifies app`categories, app.DraggedItem()
    ensures app.Valid()
    ensures afterFirst == (if old(app.drag.DraggingCategory? && app.drag.item.index != card.index)
                           then MoveCard(old(app.Snapshot()), old(app.drag.item.index), card.index).categories
                           else old(app.categories))
    ensures app.categories == afterFirst
  {
    Hover(app, card);
    afterFirst := app.categories;
    Hover(app, card);
  }

  /** The add button's drop target accepts website drags only and deletes the
      dragged id from THIS card's category: the payload names no category. */
  method DropWebsite(app: AppContent, card: Card) returns (ok: bool)
    requires app.Valid()
    modifies app`library
    ensures app.Valid()
    ensures app.categories == old(app.categories)
    ensures old(app.drag).DraggingWebsite? ==>
              && (ok <==> card.category in old(app.library))
              && (ok ==> app.Snapshot() == DeleteWebsite(old(app.Snapshot()), old(app.drag).site.id, card.category).value)
    ensures forall c :: c in old(app.library) && c != card.category ==> c in app.library && app.library[c] == old(app.library)[c]
    ensures !old(app.drag).DraggingWebsite? ==> ok && app.library == old(app.library)
  {
    ok := true;
    if app.drag.DraggingWebsite? {
      ok := app.HandleDeleteWebsite(app.drag.site.id, card.category);
    }
  }

  /** The add button asks for the add-website dialog of this card's category,
      except while a website is dragged, when it is a delete target. */
  method ClickAddButton(app: AppContent, card: Card)
    modifies app`selectedCategory, app`dialogOpen
    ensures old(app.IsWebsiteDragging()) ==>
              app.selectedCategory == old(app.selectedCategory) && app.dialogOpen == old(app.dialogOpen)
    ensures !old(app.IsWebsiteDragging()) ==> app.selectedCategory == card.category && app.dialogOpen
  {
    if !app.IsWebsiteDragging() {
      app.HandleAddWebsite(card.category);
    }
  }
}
