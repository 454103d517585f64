/** The event payload shapes of the drag-and-drop binding
    (custom_components/reflex_dnd/dnd.py). The Python classes inherit from one
    another (DraggableRubric, DragStart, DragUpdate, DropResult); here the drop
    result carries all of its inherited fields directly. */
module Dnd {
  import opened Wrappers

  /** A list (droppable zone) and a position in it. */
  datatype DraggableLocation = DraggableLocation(droppableId: string, index: int)

  /** The item a draggable was dropped onto, when the drop combines two items. */
  datatype Combine = Combine(draggableId: string, droppableId: string)

  /** The payload of a drag-end event. `dragType` is the library's `type` field.
      A destination of None means the drag was cancelled. */
  datatype DropResult = DropResult(
    draggableId: string,
    dragType: string,
    source: DraggableLocation,
    mode: string,
    destination: Option<DraggableLocation>,
    combine: Option<Combine>,
    reason: string)
}
