/** The drag payloads and the single active-drag slot of the drag-and-drop
    provider. */
module DragItems {
  import opened Wrappers
  import opened DragMonitor

  /** What a website row hands to a drag: its id, title and url, and no category. */
  datatype WebsitePayload = WebsitePayload(id: string, title: string, url: string)

  /** What a category card hands to a drag. The hover handler of every card
      the pointer crosses rewrites `index` in place. */
  class CategoryItem {
    const category: string
    var index: nat

    constructor (category: string, index: nat)
      ensures this.category == category && this.index == index
    {
      this.category := category;
      this.index := index;
    }
  }

  /** At most one drag is active, tagged by its kind. */
  datatype Drag = Idle | DraggingWebsite(site: WebsitePayload) | DraggingCategory(item: CategoryItem)

  /** The monitor's `getItemType()` for the slot. */
  function ItemType(d: Drag): (t: Option<string>)
    ensures t.None? <==> d.Idle?
  {
    match d
    case Idle => None
    case DraggingWebsite(_) => Some(WEBSITE)
    case DraggingCategory(_) => Some(CATEGORY)
  }

  /** The flags `useIsDragging` derives from the slot name its kind. */
  function Flags(d: Drag): (f: DragFlags)
    ensures f.isWebsiteDragging <==> d.DraggingWebsite?
    ensures f.isCategoryDragging <==> d.DraggingCategory?
  {
    UseIsDragging(!d.Idle?, ItemType(d))
  }
}
