/** The floor-plan editor component (components/FloorPlanDesigner.tsx) as an
    object: the polygon and hotspot lists it edits (the owner commits every
    update the component emits, so they are fields here), the owner's selected
    hotspot, and the component's own mode, drag and hover state.
    Pointer positions arrive in canvas coordinates; the Shift key is a parameter. */
module FloorPlanDesigner {
  import opened Types
  import opened ArrayOps
  import opened FloorPlanGeometry

  datatype Mode = Draw | Place

  /** `PointerEvent.button` values the handlers test. */
  const PrimaryButton: int := 0
  const SecondaryButton: int := 2

  /** Where the add-marker action puts a new hotspot, and its label. */
  const MarkerX: real := 300.0
  const MarkerY: real := 200.0
  const MarkerLabel: string := "Unnamed Spot"

  /** The polygon after a drag move of vertex `k` to the pointer (x, y), the
      target snapped with Shift. Dragging an existing vertex replaces exactly
      that vertex; an index one past the end appends (JavaScript assignment past
      the end). On an empty polygon the Shift snap reads a vertex that does not
      exist and throws, so nothing is updated. */
  function DragVertex(points: seq<Point>, k: nat, x: real, y: real, shift: bool): (r: seq<Point>)
    ensures shift && |points| == 0 ==> r == points
    ensures k < |points| ==>
      |r| == |points| &&
      (forall j :: 0 <= j < |points| && j != k ==> r[j] == points[j]) &&
      r[k] == (if shift then ShiftSnap(points, k, x, y) else Point(x, y))
    ensures k == |points| && !shift ==> r == points + [Point(x, y)]
    ensures k == |points| && shift && |points| > 0 ==> r == points + [ShiftSnap(points, k, x, y)]
    ensures k > |points| ==> r == points
  {
    if shift && |points| == 0 then points
    else WriteAt(points, k, if shift then ShiftSnap(points, k, x, y) else Point(x, y))
  }

  /** `hotspots.map(h => h.id === id ? { ...h, position: p } : h)`. */
  function MoveHotspot(hotspots: seq<Hotspot>, id: string, p: Point): (r: seq<Hotspot>)
    ensures |r| == |hotspots|
    ensures forall j :: 0 <= j < |r| ==>
      r[j].id == hotspots[j].id && r[j].photoId == hotspots[j].photoId &&
      r[j].labelText == hotspots[j].labelText &&
      r[j].position == (if hotspots[j].id == id then p else hotspots[j].position)
  {
    MapWhere(hotspots, (h: Hotspot) => h.id == id, (h: Hotspot) => h.(position := p))
  }

  /** `hotspots.map(h => h.id === id ? { ...h, photoId } : h)`. */
  function SetHotspotPhoto(hotspots: seq<Hotspot>, id: string, photoId: string): (r: seq<Hotspot>)
    ensures |r| == |hotspots|
    ensures forall j :: 0 <= j < |r| ==>
      r[j] == if hotspots[j].id == id then hotspots[j].(photoId := photoId) else hotspots[j]
  {
    MapWhere(hotspots, (h: Hotspot) => h.id == id, (h: Hotspot) => h.(photoId := photoId))
  }

  /** `hotspots.map(h => h.id === id ? { ...h, label } : h)`. */
  function SetHotspotLabel(hotspots: seq<Hotspot>, id: string, labelText: string): (r: seq<Hotspot>)
    ensures |r| == |hotspots|
    ensures forall j :: 0 <= j < |r| ==>
      r[j] == if hotspots[j].id == id then hotspots[j].(labelText := labelText) else hotspots[j]
  {
    MapWhere(hotspots, (h: Hotspot) => h.id == id, (h: Hotspot) => h.(labelText := labelText))
  }

  /** `hotspots.filter(h => h.id !== id)`: every marker with the id goes, the
      others stay, in their order and as often as they occurred. */
  function RemoveHotspot(hotspots: seq<Hotspot>, id: string): (r: seq<Hotspot>)
    ensures forall j :: 0 <= j < |r| ==> r[j].id != id
    ensures forall h :: h in hotspots && h.id != id ==> h in r
    ensures forall h :: h in r ==> h in hotspots
    ensures forall h :: multiset(r)[h] == if h.id != id then multiset(hotspots)[h] else 0
    ensures Subsequence(r, hotspots)
  {
    var keep := (h: Hotspot) => h.id != id;
    FilterKeepsOrder(hotspots, keep);
    var r := Filter(hotspots, keep);
    assert forall h :: h in r <==> multiset(r)[h] > 0;
    r
  }

  /** Dragging a hotspot away and back to where it was restores the list. */
  lemma MoveHotspotBack(hotspots: seq<Hotspot>, j: nat, p: Point)
    requires j < |hotspots|
    requires forall i :: 0 <= i < |hotspots| && hotspots[i].id == hotspots[j].id ==> i == j
    ensures MoveHotspot(MoveHotspot(hotspots, hotspots[j].id, p), hotspots[j].id, hotspots[j].position) == hotspots
  {
    var id := hotspots[j].id;
    var r := MoveHotspot(MoveHotspot(hotspots, id, p), id, hotspots[j].position);
    assert |r| == |hotspots|;
    forall i | 0 <= i < |hotspots| ensures r[i] == hotspots[i] {
    }
  }

  /** The hotspot the add-marker action creates. */
  function NewMarker(id: string, photos: seq<Photo>): (h: Hotspot)
    requires |photos| > 0
    ensures h.id == id && h.photoId == photos[0].id
    ensures h.position == Point(MarkerX, MarkerY) && h.labelText == MarkerLabel
  {
    Hotspot(id, photos[0].id, Point(MarkerX, MarkerY), MarkerLabel)
  }

  class Designer {
    /** Props the owner passes and the component never changes. */
    const readOnly: bool
    const photos: seq<Photo>

    /** The lists the component edits; every update it emits is committed here. */
    var points: seq<Point>
    var hotspots: seq<Hotspot>
    /** The owner's selected hotspot; `Some("")` after a deselect. */
    var activeHotspotId: Option<string>

    /** The component's own state. */
    var mode: Mode
    var draggedPointIndex: Option<nat>
    var draggedHotspotId: Option<string>
    var hoveredPointIndex: Option<nat>
    var hoveredHotspotId: Option<string>
    var hoveredEdge: Option<EdgeHit>

    constructor (points0: seq<Point>, hotspots0: seq<Hotspot>, photos0: seq<Photo>,
                 readOnly0: bool, active0: Option<string>)
      ensures points == points0 && hotspots == hotspots0 && photos == photos0
      ensures readOnly == readOnly0 && activeHotspotId == active0
      ensures mode == Draw && draggedPointIndex == None && draggedHotspotId == None
      ensures hoveredPointIndex == None && hoveredHotspotId == None && hoveredEdge == None
    {
      points, hotspots, photos := points0, hotspots0, photos0;
      readOnly, activeHotspotId := readOnly0, active0;
      mode := Draw;
      draggedPointIndex, draggedHotspotId := None, None;
      hoveredPointIndex, hoveredHotspotId, hoveredEdge := None, None, None;
    }

    /** `handlePointerDown`. Draw mode: a hit vertex is deleted (secondary button)
        or starts a drag (any other button); otherwise a primary press on the
        hovered edge recorded by the last move inserts that edge's nearest point
        after the edge's start and drags it; otherwise a primary press appends.
        Place mode: a hit hotspot is deleted (secondary) or dragged and selected. */
    method PointerDown(x: real, y: real, button: int)
      modifies this
      ensures mode == old(mode) && hoveredPointIndex == old(hoveredPointIndex)
      ensures hoveredHotspotId == old(hoveredHotspotId) && hoveredEdge == old(hoveredEdge)
      ensures readOnly ==>
        points == old(points) && hotspots == old(hotspots) && activeHotspotId == old(activeHotspotId) &&
        draggedPointIndex == old(draggedPointIndex) && draggedHotspotId == old(draggedHotspotId)
      ensures !readOnly && old(mode) == Draw ==>
        hotspots == old(hotspots) && activeHotspotId == old(activeHotspotId) &&
        draggedHotspotId == old(draggedHotspotId)
      ensures !readOnly && old(mode) == Draw && VertexHit(old(points), x, y).Some? ==>
        var i := VertexHit(old(points), x, y).value;
        if button == SecondaryButton then
          points == RemoveAt(old(points), i) && draggedPointIndex == old(draggedPointIndex)
        else
          points == old(points) && draggedPointIndex == Some(i)
      ensures !readOnly && old(mode) == Draw && VertexHit(old(points), x, y).None? &&
              old(hoveredEdge).Some? && button == PrimaryButton ==>
        var e := old(hoveredEdge).value;
        points == InsertAt(old(points), e.index + 1, Point(e.x, e.y)) &&
        draggedPointIndex == Some(e.index + 1)
      ensures !readOnly && old(mode) == Draw && VertexHit(old(points), x, y).None? &&
              !(old(hoveredEdge).Some? && button == PrimaryButton) ==>
        draggedPointIndex == old(draggedPointIndex) &&
        points == if button == PrimaryButton then old(points) + [Point(x, y)] else old(points)
      ensures !readOnly && old(mode) == Place ==>
        points == old(points) && draggedPointIndex == old(draggedPointIndex) &&
        match HotspotHit(old(hotspots), x, y, HotspotDragRadius)
        case None =>
          hotspots == old(hotspots) && draggedHotspotId == old(draggedHotspotId) &&
          activeHotspotId == old(activeHotspotId)
        case Some(j) =>
          if button == SecondaryButton then
            hotspots == RemoveAt(old(hotspots), j) && draggedHotspotId == old(draggedHotspotId) &&
            activeHotspotId == old(activeHotspotId)
          else
            hotspots == old(hotspots) && draggedHotspotId == Some(old(hotspots)[j].id) &&
            activeHotspotId == Some(old(hotspots)[j].id)
    {
      if readOnly {
        return;
      }
      if mode == Draw {
        var pointIdx := VertexHit(points, x, y);
        if pointIdx.Some? {
          if button == SecondaryButton {
            points := RemoveAt(points, pointIdx.value);
          } else {
            draggedPointIndex := pointIdx;
          }
          return;
        }
        if hoveredEdge.Some? && button == PrimaryButton {
          var e := hoveredEdge.value;
          points := InsertAt(points, e.index + 1, Point(e.x, e.y));
          draggedPointIndex := Some(e.index + 1);
          return;
        }
        if button == PrimaryButton {
          points := points + [Point(x, y)];
        }
      } else {
        var hotspotIdx := HotspotHit(hotspots, x, y, HotspotDragRadius);
        if hotspotIdx.Some? {
          if button == SecondaryButton {
            hotspots := RemoveAt(hotspots, hotspotIdx.value);
          } else {
            draggedHotspotId := Some(hotspots[hotspotIdx.value].id);
            activeHotspotId := Some(hotspots[hotspotIdx.value].id);
          }
        }
      }
    }

    /** `handlePointerMove`. Without a drag it refreshes the hover state (the
        vertex under the pointer, else the first edge hit, in Draw mode; the
        hotspot under the pointer in Place mode). During a vertex drag it moves
        that vertex (snapped with Shift); during a hotspot drag it moves every
        hotspot with the dragged id. */
    method PointerMove(x: real, y: real, shift: bool)
      modifies this
      ensures mode == old(mode) && activeHotspotId == old(activeHotspotId)
      ensures draggedPointIndex == old(draggedPointIndex) && draggedHotspotId == old(draggedHotspotId)
      ensures readOnly ==>
        points == old(points) && hotspots == old(hotspots) && hoveredPointIndex == old(hoveredPointIndex) &&
        hoveredHotspotId == old(hoveredHotspotId) && hoveredEdge == old(hoveredEdge)
      ensures !readOnly && old(draggedPointIndex).None? && old(draggedHotspotId).None? ==>
        points == old(points) && hotspots == old(hotspots)
      ensures !readOnly && old(draggedPointIndex).None? && old(draggedHotspotId).None? && old(mode) == Draw ==>
        hoveredPointIndex == VertexHit(old(points), x, y) && hoveredHotspotId == old(hoveredHotspotId) &&
        (if VertexHit(old(points), x, y).None? && |old(points)| > 1
         then IsFirstEdgeHit(old(points), x, y, hoveredEdge)
         else hoveredEdge == None)
      ensures !readOnly && old(draggedPointIndex).None? && old(draggedHotspotId).None? && old(mode) == Place ==>
        hoveredPointIndex == old(hoveredPointIndex) && hoveredEdge == old(hoveredEdge) &&
        hoveredHotspotId == match HotspotHit(old(hotspots), x, y, HotspotDragRadius)
                            case None => None
                            case Some(j) => Some(old(hotspots)[j].id)
      ensures !readOnly && (old(draggedPointIndex).Some? || old(draggedHotspotId).Some?) ==>
        hoveredPointIndex == old(hoveredPointIndex) && hoveredHotspotId == old(hoveredHotspotId) &&
        hoveredEdge == old(hoveredEdge)
      ensures !readOnly && old(draggedPointIndex).Some? ==>
        hotspots == old(hotspots) &&
        points == DragVertex(old(points), old(draggedPointIndex).value, x, y, shift)
      ensures !readOnly && old(draggedPointIndex).None? && old(draggedHotspotId).Some? ==>
        points == old(points) &&
        hotspots == MoveHotspot(old(hotspots), old(draggedHotspotId).value, Point(x, y))
    {
      if readOnly {
        return;
      }
      if draggedPointIndex.None? && draggedHotspotId.None? {
        if mode == Draw {
          var pIdx := VertexHit(points, x, y);
          hoveredPointIndex := pIdx;
          if pIdx.None? && |points| > 1 {
            var foundEdge := FindEdge(points, x, y);
            hoveredEdge := foundEdge;
          } else {
            hoveredEdge := None;
          }
        } else {
          var hIdx := HotspotHit(hotspots, x, y, HotspotDragRadius);
          hoveredHotspotId := if hIdx.Some? then Some(hotspots[hIdx.value].id) else None;
        }
      }
      if draggedPointIndex.Some? {
        var k := draggedPointIndex.value;
        if shift && |points| == 0 {
          return;
        }
        var target := Point(x, y);
        if shift {
          target := SnapPoint(points, k, x, y);
        }
        points := WriteAt(points, k, target);
      } else if draggedHotspotId.Some? {
        hotspots := MoveHotspot(hotspots, draggedHotspotId.value, Point(x, y));
      }
    }

    /** `handlePointerUp`, also bound to pointer leave: ends any drag. */
    method PointerUp()
      modifies this
      ensures draggedPointIndex == None && draggedHotspotId == None
      ensures points == old(points) && hotspots == old(hotspots) && mode == old(mode)
      ensures activeHotspotId == old(activeHotspotId) && hoveredPointIndex == old(hoveredPointIndex)
      ensures hoveredHotspotId == old(hoveredHotspotId) && hoveredEdge == old(hoveredEdge)
    {
      draggedPointIndex := None;
      draggedHotspotId := None;
    }

    /** `handleAddMarker` (the Marker toolbar button, shown only on an editable
        canvas) with `newId` the generated id. Without photos nothing changes;
        otherwise one marker pointing at the first photo is appended, the mode
        becomes Place and the marker is selected. */
    method AddMarker(newId: string)
      modifies this
      ensures readOnly || |photos| == 0 ==>
        hotspots == old(hotspots) && mode == old(mode) && activeHotspotId == old(activeHotspotId)
      ensures !readOnly && |photos| > 0 ==>
        hotspots == old(hotspots) + [NewMarker(newId, photos)] && mode == Place &&
        activeHotspotId == Some(newId)
      ensures points == old(points)
      ensures PointerStateKept()
    {
      if readOnly || |photos| == 0 {
        return;
      }
      mode := Place;
      hotspots := hotspots + [NewMarker(newId, photos)];
      activeHotspotId := Some(newId);
    }

    /** The read-only canvas click: the id of the first hotspot within 25 of the
        pointer is reported for selection; an editable canvas reports nothing. */
    function ClickedHotspot(x: real, y: real): (r: Option<string>)
      reads this
      ensures readOnly ==>
        (r.Some? <==> exists j :: 0 <= j < |hotspots| && Within(hotspots[j].position, x, y, HotspotClickRadius))
      ensures r.Some? ==>
        exists j :: (0 <= j < |hotspots| && hotspots[j].id == r.value &&
                     Within(hotspots[j].position, x, y, HotspotClickRadius) &&
                     forall i :: 0 <= i < j ==> !Within(hotspots[i].position, x, y, HotspotClickRadius))
      ensures !readOnly ==> r == None
    {
      if !readOnly then None
      else
        match HotspotHit(hotspots, x, y, HotspotClickRadius)
        case None => None
        case Some(j) => Some(hotspots[j].id)
    }

    /** The drag and hover state is as it was before the call: the toolbar and
        the marker panel never touch it. */
    twostate predicate PointerStateKept()
      reads this
    {
      draggedPointIndex == old(draggedPointIndex) && draggedHotspotId == old(draggedHotspotId) &&
      hoveredPointIndex == old(hoveredPointIndex) && hoveredHotspotId == old(hoveredHotspotId) &&
      hoveredEdge == old(hoveredEdge)
    }

    /** The Draw toolbar button: Draw mode and a deselect (`''`). The toolbar
        is only shown on an editable canvas. */
    method SelectDrawMode()
      modifies this
      ensures !readOnly ==> mode == Draw && activeHotspotId == Some("")
      ensures readOnly ==> mode == old(mode) && activeHotspotId == old(activeHotspotId)
      ensures points == old(points) && hotspots == old(hotspots)
      ensures PointerStateKept()
    {
      if !readOnly {
        mode := Draw;
        activeHotspotId := Some("");
      }
    }

    /** The Move toolbar button: Place mode, and nothing else changes. */
    method SelectPlaceMode()
      modifies this
      ensures mode == if readOnly then old(mode) else Place
      ensures points == old(points) && hotspots == old(hotspots) && activeHotspotId == old(activeHotspotId)
      ensures PointerStateKept()
    {
      if !readOnly {
        mode := Place;
      }
    }

    /** The Reset toolbar button, `confirmed` being the answer to its dialog:
        a confirmed reset empties both lists, a refused one changes nothing. */
    method Reset(confirmed: bool)
      modifies this
      ensures !readOnly && confirmed ==> points == [] && hotspots == []
      ensures readOnly || !confirmed ==> points == old(points) && hotspots == old(hotspots)
      ensures mode == old(mode) && activeHotspotId == old(activeHotspotId)
      ensures PointerStateKept()
    {
      if !readOnly && confirmed {
        points := [];
        hotspots := [];
      }
    }

    /** The marker editor panel is shown for a truthy selection on an editable canvas. */
    predicate EditorOpen(): (r: bool)
      reads this
      ensures r <==> !readOnly && activeHotspotId.Some? && |activeHotspotId.value| > 0
    {
      !readOnly && Truthy(activeHotspotId)
    }

    /** The panel's 360-view selector. */
    method EditPhotoId(photoId: string)
      modifies this
      ensures EditorOpen() == old(EditorOpen())
      ensures hotspots == if old(EditorOpen()) then SetHotspotPhoto(old(hotspots), old(activeHotspotId).value, photoId)
                          else old(hotspots)
      ensures points == old(points) && activeHotspotId == old(activeHotspotId) && mode == old(mode)
      ensures PointerStateKept()
    {
      if EditorOpen() {
        hotspots := SetHotspotPhoto(hotspots, activeHotspotId.value, photoId);
      }
    }

    /** The panel's label field. */
    method EditLabel(labelText: string)
      modifies this
      ensures EditorOpen() == old(EditorOpen())
      ensures hotspots == if old(EditorOpen()) then SetHotspotLabel(old(hotspots), old(activeHotspotId).value, labelText)
                          else old(hotspots)
      ensures points == old(points) && activeHotspotId == old(activeHotspotId) && mode == old(mode)
      ensures PointerStateKept()
    {
      if EditorOpen() {
        hotspots := SetHotspotLabel(hotspots, activeHotspotId.value, labelText);
      }
    }

    /** The panel's Delete Marker button: removes the selected marker and deselects. */
    method DeleteMarker()
      modifies this
      ensures old(EditorOpen()) ==>
        hotspots == RemoveHotspot(old(hotspots), old(activeHotspotId).value) && activeHotspotId == Some("")
      ensures !old(EditorOpen()) ==> hotspots == old(hotspots) && activeHotspotId == old(activeHotspotId)
      ensures points == old(points) && mode == old(mode)
      ensures PointerStateKept()
    {
      if EditorOpen() {
        hotspots := RemoveHotspot(hotspots, activeHotspotId.value);
        activeHotspotId := Some("");
      }
    }

    /** The panel's close button: deselects. */
    method CloseEditor()
      modifies this
      ensures activeHotspotId == if old(EditorOpen()) then Some("") else old(activeHotspotId)
      ensures points == old(points) && hotspots == old(hotspots) && mode == old(mode)
      ensures PointerStateKept()
    {
      if EditorOpen() {
        activeHotspotId := Some("");
      }
    }
  }
}
