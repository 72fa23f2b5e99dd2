/** `useIsDragging`: two flags derived from the drag monitor's state. */
module DragMonitor {
  import opened Wrappers

  /** The item types the drag sources register. */
  const WEBSITE: string := "website"
  const CATEGORY: string := "category"

  datatype DragFlags = DragFlags(isWebsiteDragging: bool, isCategoryDragging: bool)

  /** `isDragging` and `itemType` are what the monitor reports; `itemType`
      is absent when nothing is dragged. */
  function UseIsDragging(isDragging: bool, itemType: Option<string>): (f: DragFlags)
    ensures !(f.isWebsiteDragging && f.isCategoryDragging)
    ensures f.isWebsiteDragging <==> isDragging && itemType == Some(WEBSITE)
    ensures f.isCategoryDragging <==> isDragging && itemType == Some(CATEGORY)
  {
    DragFlags(isDragging && itemType == Some(WEBSITE), isDragging && itemType == Some(CATEGORY))
  }

  /** No active drag, or an item of any other type, raises neither flag. */
  lemma NoFlagsOtherwise(isDragging: bool, itemType: Option<string>)
    requires !isDragging || (itemType != Some(WEBSITE) && itemType != Some(CATEGORY))
    ensures UseIsDragging(isDragging, itemType) == DragFlags(false, false)
  {
  }
}
