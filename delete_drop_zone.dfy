/** `DeleteDropZone`: the global drop target that accepts category drags and
    forwards the dragged category's name to `onDrop`. */
module DeleteDropZone {
  import opened Wrappers
  import opened DragItems

  /** The zone's `accept` list. */
  predicate Accepts(d: Drag) {
    d.DraggingCategory?
  }

  /** The argument a drop passes to `onDrop`: the dragged payload's category
      name, or no call at all for a drag the zone does not accept. */
  function OnDropArgument(d: Drag): (name: Option<string>)
    ensures name.Some? <==> Accepts(d)
    ensures name.Some? ==> name.value == d.item.category
  {
    if Accepts(d) then Some(d.item.category) else None
  }
}
