/** One level node on the map: its clickability, event forwarding, content and star row. */
module Node {
  import opened Wrappers
  import opened Geometry
  import opened Levels

  /** A hover report handed to the map: the level (or none) and where its tooltip goes. */
  datatype HoverEvent = HoverEvent(level: Option<Level>, position: Point)

  /** The bounding box of the node's circle, as far as the hover position needs it. */
  datatype Rect = Rect(left: real, top: real, width: real)

  /** What the node's circle shows. */
  datatype NodeContent = LockIcon | LevelNumber(id: int)

  /** A node reacts to clicks and hovering unless it is locked. */
  predicate IsClickable(status: LevelStatus) {
    status != Locked
  }

  /** A click forwards the level id to the map's handler, or does nothing for a locked node. */
  function HandleClick(level: Level, status: LevelStatus): (r: Option<int>)
    ensures r.Some? ==> r.value == level.id
    ensures r.None? <==> status == Locked
  {
    if IsClickable(status) then Some(level.id) else None
  }

  /** Entering a clickable node reports the level with a position centred on the node's top edge. */
  function HandleMouseEnter(level: Level, status: LevelStatus, rect: Rect): (r: Option<HoverEvent>)
    ensures r.None? <==> status == Locked
    ensures r.Some? ==> r.value.level == Some(level)
    ensures r.Some? ==> r.value.position.y == rect.top
    ensures r.Some? ==> Between(r.value.position.x, rect.left, rect.left + rect.width)
    ensures r.Some? ==> r.value.position.x - rect.left == rect.left + rect.width - r.value.position.x
  {
    if IsClickable(status) then
      Some(HoverEvent(Some(level), Point(rect.left + rect.width / 2.0, rect.top)))
    else None
  }

  /** Leaving any node clears the hover. */
  function HandleMouseLeave(): (r: HoverEvent)
    ensures r.level.None? && r.position == Point(0.0, 0.0)
  {
    HoverEvent(None, Point(0.0, 0.0))
  }

  /** A locked node shows a lock; every other node shows its level number. */
  function RenderContent(level: Level, status: LevelStatus): (c: NodeContent)
    ensures c == LockIcon <==> status == Locked
    ensures c.LevelNumber? ==> c.id == level.id
  {
    if status == Locked then LockIcon else LevelNumber(level.id)
  }

  /** The star row under the node, shown only for a completed level. */
  function RenderStarRow(level: Level, status: LevelStatus): (r: Option<seq<bool>>)
    ensures r.Some? <==> status == Completed
    ensures r.Some? ==> |r.value| == 3 && forall i :: 0 <= i < 3 ==> (r.value[i] <==> i < level.stars)
  {
    StarRowFilledCount(level.stars);
    if status == Completed then Some(StarRow(level.stars)) else None
  }
}
