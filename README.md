# Bookmark library and drag controller, modelled in Dafny

The system is a browser page that organises bookmarked websites into named
categories. Its state lives in two cells of the `AppContent` component:
`library`, a mapping from category name to an ordered list of website records,
and `categories`, the display order of the names. Five handlers replace these
cells: add a website, delete a website, delete a category, add a category, and
move a category card. A search query narrows the shown categories to those
whose name, or one of whose sites, matches. Drag-and-drop drives three of the
handlers:
- dragging a category card over another card reorders the display order live;
- dropping a website on a card's add button deletes it;
- dropping a category on a global zone deletes the category.

The model takes the same layers:

- `Store` (store.dfy): the record and state types and each handler as a
  function from the previous state to the next. `Valid` is the invariant: the
  display order lists every key exactly once and nothing else. Lemmas prove
  which handlers keep it, and prove idempotence, undo, and the positions after
  a move.
- `Search` (search.dfy): `filteredCategories` as an order-preserving filter.
  `Text` (text.dfy) supplies lower-casing and substring containment.
  `Seqs` (seqs.dfy) supplies `filter`, the two-`splice` move, and
  subsequence and no-duplicates notions.
- `DragMonitor` (drag_monitor.dfy): the `useIsDragging` hook.
- `DragItems` (drag_items.dfy): the drag payloads, including the category
  payload, an object whose `index` field the cards rewrite in place, and the
  single active-drag slot.
- `DeleteDropZone` (delete_drop_zone.dfy): what the global zone accepts and
  forwards.
- `App` (app.dfy): the class `AppContent`. It holds `library`, `categories`,
  the add-website dialog's target and the active drag. Its handler methods
  replace the fields with the `Store` functions' results.
- `CategoryCard` (category_card.dfy): a card's drag start, its reorder-on-hover
  rule, its website drop target and its add button, as methods on an
  `AppContent`.

Three behaviours of the code that are easy to miss. The model follows the
code in each:
- Adding a website to an absent category creates that key (App.tsx:94); it
  is not a no-op. The display order does not gain the name, so the invariant
  breaks exactly then (`Store.AddNewWebsiteValid`).
- Deleting a website from an absent category throws, because it reads
  `filter` of `undefined` (App.tsx:108); it is not a no-op. The model returns
  `Err(MissingCategory)`, and the class method reports `false` and keeps the
  state.
- A website dropped on a card's button is deleted from THAT card's category.
  The drag payload `{id, title, url}` names no source category
  (CategoryCard.tsx:43-44, WebsiteItem.tsx:13). Dropping on another card
  removes only records with that id from the target list. It is a no-op when
  there are none (`Store.DeleteWebsiteAbsentId`).

Card indices are positions in the shown (filtered) list (App.tsx:194-199).
`handleMoveCard` applies them to the full display order, and so does the
model. Without a query the two agree (`App.CardsWithoutQuery`). With a query
they can name different categories (`App.CardIndexUnderQuery`).

`handleAddCategory` tests the `library` of the current render rather than the
updater's `prev` (App.tsx:123). The model treats each handler as one
sequential transition, so the two are the same state.

## Model

| member | source | states |
|---|---|---|
| `Store.ValidMeans` | src/app/App.tsx:78-79 | the invariant (each key listed exactly once, nothing else listed) is the same as: display order duplicate-free and its names are exactly the library's keys |
| `Store.Initial` | src/app/App.tsx:17-79 | the seed library with `Object.keys` order as display order satisfies the invariant |
| `Store.AddNewWebsite` | src/app/App.tsx:90-103 | exactly one record with the given id, title, url and description is appended to the category's list (an absent key counts as the empty list and is created); earlier records, every other key and the display order are unchanged |
| `Store.AddNewWebsiteValid` | src/app/App.tsx:91-102 | on a valid state, adding a website keeps the invariant if and only if the category is already a key |
| `Store.DeleteWebsite` | src/app/App.tsx:105-111 | fails exactly when the category is absent; otherwise keeps exactly the records of that category whose id differs, each with its multiplicity, in their original order, and leaves keys, other lists and the display order unchanged |
| `Store.DeleteWebsiteTwice` | src/app/App.tsx:105-111 | deleting the same id from the same category a second time changes nothing |
| `Store.DeleteWebsiteAbsentId` | src/app/App.tsx:108 | a category holding no record with the id is left as it is |
| `Store.DeleteWebsiteKeepsValid` | src/app/App.tsx:105-111 | a successful website deletion keeps the invariant |
| `Store.DeleteCategory` | src/app/App.tsx:113-120 | the name is neither a key nor in the display order afterwards; other keys keep their lists; every other name keeps its count and the survivors keep their relative order |
| `Store.DeleteCategoryKeepsValid` | src/app/App.tsx:113-120 | deleting a category keeps the invariant |
| `Store.DeleteCategoryTwice` | src/app/App.tsx:113-120 | deleting the same category twice equals deleting it once |
| `Store.AddCategory` | src/app/App.tsx:122-130 | an empty or existing name leaves the state unchanged; a new name maps to the empty list and is appended at the end of the display order, all other keys and positions unchanged |
| `Store.AddCategoryTwice` | src/app/App.tsx:123 | adding the same name twice equals adding it once |
| `Store.AddCategoryKeepsValid` | src/app/App.tsx:122-130 | adding a category keeps the invariant |
| `Store.MoveCard` | src/app/App.tsx:132-139 | the display order is permuted (same length, same multiset), the dragged name lands at the hover index, the library is untouched |
| `Store.MoveCardPositions` | src/app/App.tsx:134-136 | position by position: the moved name at the hover index, the names in between shifted one place towards the drag index, all others in place |
| `Store.MoveCardSamePlace` | src/app/App.tsx:132-139 | a move with equal indices is the identity |
| `Store.MoveCardUndo` | src/app/App.tsx:132-139 | moving back from the hover index to the drag index restores the state |
| `Store.MoveCardKeepsValid` | src/app/App.tsx:132-139 | a move keeps the invariant |
| `Store.SeedScenario` | src/app/App.tsx:38-51 | from the seed, a site added to "Design" becomes its third record; deleting "Design" afterwards drops the key and the name while "Development" keeps its list |
| `Seqs.Filter` | src/app/App.tsx:119 | `filter` keeps every element satisfying the callback with its multiplicity and drops all others |
| `Seqs.FilterIsSubsequence` | src/app/App.tsx:119 | `filter` preserves relative order |
| `Seqs.Move` | src/app/App.tsx:134-136 | the two `splice` calls give a permutation of the same length with the removed element at the insertion index |
| `Seqs.MoveExample` | src/app/App.tsx:132-139 | moving index 0 to index 2 of A, B, C, D gives B, C, A, D |
| `Search.FilteredCategories` | src/app/App.tsx:141-152 | the shown categories are an order-preserving subsequence of the display order holding exactly the names, with their multiplicities, whose own name or some site's title, url or description matches |
| `Search.EmptyQueryShowsAll` | src/app/App.tsx:142 | an empty query shows the display order unchanged |
| `Search.QueryCaseInsensitive` | src/app/App.tsx:144-149 | the result does not change when the query is lower-cased |
| `Search.MissingKeyMatchesByName` | src/app/App.tsx:143 | a name with no key matches only by its own name |
| `Search.NoDescriptionMatchesByTitleOrUrl` | src/app/App.tsx:149 | an absent description never matches |
| `Search.ShownAreKeys` | src/app/App.tsx:194-199 | under the invariant every shown name is a key and the shown list is no longer than the display order |
| `Text.ContainsAt` | src/app/App.tsx:144 | `includes` holds exactly when the needle occurs at some offset |
| `Text.LowerStrIdempotent` | src/app/App.tsx:144 | lower-casing twice is lower-casing once |
| `DragMonitor.UseIsDragging` | src/app/hooks/useIsDragging.ts:9-12 | the website flag holds iff a drag is active with type `website`, the category flag iff active with type `category`; never both |
| `DragMonitor.NoFlagsOtherwise` | src/app/hooks/useIsDragging.ts:10-11 | with no active drag, or an item of any other type, both flags are false |
| `DragItems.ItemType` | src/app/hooks/useIsDragging.ts:6 | the monitor reports no item type exactly when the slot is idle |
| `DragItems.Flags` | src/app/hooks/useIsDragging.ts:4-11 | on the drag slot, the website flag holds iff a website is dragged and the category flag iff a category is dragged |
| `DragItems.CategoryItem.constructor` | src/app/components/CategoryCard.tsx:35 | the category payload holds the card's name and index |
| `DeleteDropZone.OnDropArgument` | src/app/components/DeleteDropZone.tsx:9-13 | the zone calls `onDrop` only for category drags, and with exactly the payload's category name |
| `App.CardsInRange` | src/app/App.tsx:194-199 | under the invariant every rendered card names a key and its index is a valid position of the display order |
| `App.CardsWithoutQuery` | src/app/App.tsx:194-199 | without a query card i shows the i-th name of the display order |
| `App.CardIndexUnderQuery` | src/app/App.tsx:194-199 | with a query a card's index can stand for a different name in the display order |
| `App.AppContent.constructor` | src/app/App.tsx:77-83 | the app starts from the seed state, satisfying the invariant, with no dialog and no drag |
| `App.AppContent.HandleAddWebsite` | src/app/App.tsx:85-88 | remembers the category and opens the dialog |
| `App.AppContent.HandleAddNewWebsite` | src/app/App.tsx:90-103 | the state becomes `Store.AddNewWebsite` of the old one; the invariant survives iff the category was a key |
| `App.AppContent.HandleDeleteWebsite` | src/app/App.tsx:105-111 | succeeds iff the category is a key; the state becomes `Store.DeleteWebsite` of the old one, or is unchanged where the source throws; the invariant survives |
| `App.AppContent.HandleDeleteCategory` | src/app/App.tsx:113-120 | the state becomes `Store.DeleteCategory` of the old one; the invariant survives |
| `App.AppContent.HandleAddCategory` | src/app/App.tsx:122-130 | the state becomes `Store.AddCategory` of the old one; the invariant survives |
| `App.AppContent.HandleMoveCard` | src/app/App.tsx:132-139 | the state becomes `Store.MoveCard` of the old one; the invariant survives |
| `App.AppContent.BeginDrag` | src/app/components/WebsiteItem.tsx:11-17 | a drag source fills the idle slot with its payload |
| `App.AppContent.EndDrag` | src/app/hooks/useIsDragging.ts:4-11 | when a drag ends (after a drop or a cancel) the slot returns to idle, so both `useIsDragging` flags fall |
| `App.AppContent.DropOnDeleteZone` | src/app/App.tsx:210 | during a category drag the dragged category is deleted (neither key nor listed afterwards); at any other time nothing changes; the invariant survives |
| `CategoryCard.BeginCategoryDrag` | src/app/components/CategoryCard.tsx:33-39 | a card drag puts a fresh payload holding the card's category and index in the slot |
| `CategoryCard.Hover` | src/app/components/CategoryCard.tsx:51-59 | only a category drag whose payload index differs from the card's moves the display order, from the payload index to the card index, and then sets the payload index to the card index; the library and the slot are unchanged; if the payload index was the dragged category's position it still is |
| `CategoryCard.HoverSameCardTwice` | src/app/components/CategoryCard.tsx:53-58 | a second hover over the same card leaves the display order as the first one left it |
| `CategoryCard.DropWebsite` | src/app/components/CategoryCard.tsx:41-49 | only a website drag deletes, and from the drop target's category; every other category's list and the display order stay unchanged |
| `CategoryCard.ClickAddButton` | src/app/components/CategoryCard.tsx:88 | while a website is dragged the button does nothing; otherwise it opens the dialog for this card's category |

## Left out

- Rendering: JSX, styling classes, icons, opacity and scale effects, the
  "No websites yet" and "No categories" messages. They are display only.
- The drag-and-drop library itself: pointer hit-testing, monitors,
  `useDragLayer`, and how `useDrag`/`useDrop` memoise their spec closures.
  Drag start, hover, drop and end are explicit transitions. The one active
  drag is a `requires` on `BeginDrag`.
- CategoryCard.Hover: the hover handler sees the card's current index. In the
  source the `useDrop` spec is built once by a factory without dependencies,
  so the library may keep a closure over an earlier render's `index`; that
  memoisation is library code and is not modelled.
- The hover state `isOver` of both drop targets (DeleteDropZone.tsx:14-15,
  22-27; CategoryCard.tsx:46-48). It only drives styling.
- `Date.now().toString()` id generation (App.tsx:96) reads a clock. The id is
  a parameter, and its uniqueness within a list is not claimed.
- The two dialog components (AddWebsiteDialog.tsx, AddCategoryDialog.tsx) are
  form UI. Their non-empty title and url check becomes the `requires` of
  `AddNewWebsite`. Their non-empty name check is re-checked by `AddCategory`
  anyway.
- `WebsiteItem.tsx` rendering and `getFaviconUrl`, which depends on the
  platform URL parser. Only its payload shape feeds the model.
- The search query cell (App.tsx:80) is a parameter of
  `FilteredCategories`, not a field.
- JavaScript object quirks: prototype keys such as `"constructor"` read as
  present, and `Object.keys` ordering beyond the seed's insertion order.
- Full Unicode `toLowerCase`. Lower-casing is ASCII only.
- React's asynchronous, batched state updates. Each handler is one
  sequential transition.
- Store.MoveCard, Seqs.Move: out-of-range indices are a precondition. In the
  source `splice` would clamp them and insert `undefined`; the card indices,
  being positions in the shown list, are always in range (`App.CardsInRange`).
- Store.MoveCard: the two `splice` calls on a copied array are modelled on
  sequence values, not as in-place array edits.
- App.AppContent.HandleDeleteWebsite: the thrown error is a `false` result
  with the state kept. What React does with an exception in an updater is not
  modelled.
