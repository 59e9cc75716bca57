# Virtual property tour: editor, viewer and listing logic

This project models the logic of a browser app for virtual property tours.
Each listing has 360° panoramas, a floor-plan polygon and markers (hotspots)
that link positions on the plan to panoramas. Four components are modelled:

- **FloorPlanDesigner** (`floor_plan_geometry.dfy`, `floor_plan_designer.dfy`). The floor-plan editor is a class `Designer`. Its fields are the polygon, the hotspot list, the selected hotspot and the component's mode, drag and hover state.
  - Its pointer handlers:
    - delete, insert, append and drag vertices;
    - drag and delete hotspots;
    - update the hover state.
  - The pure parts are functions with lemmas. They cover:
    - the point-to-segment distance (nearest point on the segment, and minimal);
    - the first-hit searches;
    - the edge search loop (a method with invariants);
    - the Shift-snap `forEach` loop (a method proved against a prefix-fold function).
- **Viewer360** (`viewer360.dfy`). The panorama viewer's orbit and zoom state is a class `Viewer`. It covers press, move and release dragging, wheel zoom with a clamp, the per-frame latitude clamp and the unclamped field-of-view prop.
- **CustomerView** (`customer_view.dfy`, `listings.dfy`). This is the public tour page.
  - The image it shows follows a day/night, furnished/empty fallback chain with JavaScript `||` truthiness. That chain is proved equal to an independent "first non-empty candidate" definition.
  - It also covers the hotspot/panorama lookups and the page state (class `Tour`): select, back, and the first-panorama auto-initialisation.
- **AdminView** (`admin_view.dfy`). The listing editor (class `Admin`) is built from record updates:
  - a partial-record merge, with identity, idempotence and composition lemmas;
  - per-slot image uploads, with get/put lemmas;
  - new panorama and new listing records;
  - listing and panorama deletion, and panorama rename.

Shared pieces: `types.dfy` holds the records of `types.ts`. Numbers are exact reals, and an optional field is an `Option`. The hotspot's `label` field is named `labelText`, because `label` is a Dafny keyword. `array_ops.dfy` holds the JavaScript array operations the components build their updates from.

How the model represents the source:

- Pointer coordinates arrive in canvas space.
- The Shift key, generated ids, dialog answers, file names and file contents are parameters.
- `Math.hypot(..) < r` is the squared distance compared with `r * r`.
- Each component's parent commits every update the component emits. So the lists a component edits are fields of its class.

## Model

| member | source | states |
|---|---|---|
| Types.OrElse | components/CustomerView.tsx:91 | `a \|\| b` on an optional string: the string when it is present and non-empty, otherwise `b` |
| ArrayOps.FindIndex | components/FloorPlanDesigner.tsx:176 | the lowest index satisfying the predicate, and none exactly when no element does |
| ArrayOps.Find | components/CustomerView.tsx:65 | some element satisfies the predicate exactly when a result is returned; the result is the first element in order that satisfies it |
| ArrayOps.RemoveAt | components/FloorPlanDesigner.tsx:179 | length drops by one; elements before the index stay, later ones shift down by one |
| ArrayOps.InsertAt | components/FloorPlanDesigner.tsx:187-188 | `splice(i, 0, v)`: length grows by one; `v` sits at the start clamped to the length; earlier elements stay and later ones shift up |
| ArrayOps.WriteAt | components/FloorPlanDesigner.tsx:263-264 | an index in range replaces only that element; the index equal to the length appends |
| ArrayOps.Filter | components/AdminView.tsx:145 | every kept element passes the test; each value occurs as often as in the input if it passes, and not at all otherwise |
| ArrayOps.MapWhere | components/AdminView.tsx:39 | same length; selected elements are rewritten and every other element is unchanged |
| ArrayOps.InsertRemoveRoundTrip | components/FloorPlanDesigner.tsx:179-188 | removing an element and splicing it back at the same index restores the list |
| ArrayOps.RemoveInsertRoundTrip | components/FloorPlanDesigner.tsx:186-191 | splicing an element in and removing that index restores the list |
| ArrayOps.FilterKeepsOrder | components/AdminView.tsx:145 | a filter's result is a subsequence of its input: relative order is preserved |
| Listings.SelectedApartment | components/CustomerView.tsx:44 | the open listing is the first in the list carrying the selected id; a null selection finds nothing; no result means no listing has the id |
| FloorPlanGeometry.ClampedParam | components/FloorPlanDesigner.tsx:37-40 | the projection parameter lies in [0, 1]: it is 0 when the unclamped projection is below 0, 1 when it is above 1, and the projection itself in between; it is 0 for a zero-length segment |
| FloorPlanGeometry.DistToSegment | components/FloorPlanDesigner.tsx:36-44 | the reported distance is the distance to the reported point; a zero-length segment reports its first end |
| FloorPlanGeometry.NearestLiesOnSegment | components/FloorPlanDesigner.tsx:39-42 | the reported point is p1 + t(p2 - p1) for some t in [0, 1] |
| FloorPlanGeometry.NearestIsClosest | components/FloorPlanDesigner.tsx:36-44 | no point of the segment is closer to the pointer than the reported point |
| FloorPlanGeometry.PrevIndex | components/FloorPlanDesigner.tsx:254 | `(k - 1 + n) % n` is a valid vertex index |
| FloorPlanGeometry.VertexHit | components/FloorPlanDesigner.tsx:176 | the lowest-index vertex strictly within 15; none exactly when no vertex is within 15 |
| FloorPlanGeometry.HotspotHit | components/FloorPlanDesigner.tsx:198 | the lowest-index hotspot strictly within the radius; none exactly when no hotspot is |
| FloorPlanGeometry.FindEdge | components/FloorPlanDesigner.tsx:219-233 | the loop reports the first edge in index order whose distance is below 10, skipping the closing edge of a polygon with two or fewer points, with that edge's nearest point; none if no edge qualifies |
| FloorPlanGeometry.FirstEdgeHitUnique | components/FloorPlanDesigner.tsx:221-232 | the first-edge-hit result is determined by the polygon and the pointer |
| FloorPlanGeometry.ClosingEdgeSkipped | components/FloorPlanDesigner.tsx:222-223 | with two or fewer points the closing edge is never reported |
| FloorPlanGeometry.SnapAxis | components/FloorPlanDesigner.tsx:248-252 | after the `forEach` the coordinate is the raw one or that of a vertex, other than the dragged one, within 15 on that axis |
| FloorPlanGeometry.SnapAxisWithoutCandidate | components/FloorPlanDesigner.tsx:248-252 | with no other vertex within 15 on an axis, that coordinate is not snapped |
| FloorPlanGeometry.SnapAxisIsLastCandidate | components/FloorPlanDesigner.tsx:248-252 | the snapped coordinate is that of the last vertex in order (other than the dragged one) within 15 on that axis |
| FloorPlanGeometry.ShiftSnapLocksToPrevious | components/FloorPlanDesigner.tsx:253-257 | with nothing to snap to, the point takes the previous vertex's y when the horizontal offset is larger, and otherwise its x |
| FloorPlanGeometry.ShiftSnapTakesLastCandidates | components/FloorPlanDesigner.tsx:258-261 | when a vertex with a different x is in range, x becomes the last such x, and y independently the last in-range y (or stays) |
| FloorPlanGeometry.ShiftSnapTakesLastYCandidate | components/FloorPlanDesigner.tsx:258-261 | when a vertex with a different y is in range, y becomes the last such y, and x independently the last in-range x (or stays) |
| FloorPlanGeometry.ShiftSnap | components/FloorPlanDesigner.tsx:244-261 | each coordinate of the snapped point is the pointer's own or some vertex's, and the point always lines up with some vertex on at least one axis |
| FloorPlanGeometry.SnapPoint | components/FloorPlanDesigner.tsx:244-261 | the `forEach` loop and the fallback lock compute exactly the snap function |
| FloorPlanDesigner.DragVertex | components/FloorPlanDesigner.tsx:243-265 | a drag of an existing vertex keeps the length and every other vertex and puts the dragged vertex on the pointer, or on the snapped point with Shift; an index at the end appends; a Shift-drag on an empty polygon changes nothing |
| FloorPlanDesigner.MoveHotspot | components/FloorPlanDesigner.tsx:266-270 | a hotspot drag moves only hotspots with the dragged id; ids, panoramas, labels and order are kept |
| FloorPlanDesigner.MoveHotspotBack | components/FloorPlanDesigner.tsx:266-270 | with unique ids, dragging a hotspot away and back to its old position restores the list |
| FloorPlanDesigner.SetHotspotPhoto | components/FloorPlanDesigner.tsx:366-369 | only the selected hotspot's panorama changes |
| FloorPlanDesigner.SetHotspotLabel | components/FloorPlanDesigner.tsx:379-382 | only the selected hotspot's label changes |
| FloorPlanDesigner.RemoveHotspot | components/FloorPlanDesigner.tsx:387-390 | no hotspot with the id remains; every other hotspot is kept, in order and as often as it occurred; nothing new appears |
| FloorPlanDesigner.NewMarker | components/FloorPlanDesigner.tsx:286-291 | a new marker is at (300, 200), labelled "Unnamed Spot", and leads to the first panorama |
| FloorPlanDesigner.Designer.constructor | components/FloorPlanDesigner.tsx:17-33 | starts in draw mode with no drag and no hover |
| FloorPlanDesigner.Designer.PointerDown | components/FloorPlanDesigner.tsx:171-208 | read-only: no-op. Draw mode: a hit vertex is deleted by the secondary button (nothing else changes) or dragged; otherwise a primary press on the last hovered edge i inserts that edge's nearest point at i+1 and drags it; otherwise a primary press appends the pointer and any other press changes nothing. Place mode: the first hotspot within 20 is deleted (secondary) or dragged and selected |
| FloorPlanDesigner.Designer.PointerMove | components/FloorPlanDesigner.tsx:210-272 | read-only: no-op. Without a drag only hover changes: the vertex hit, then the first edge hit when no vertex is hit and there are at least two points; in place mode, the hotspot within 20. A vertex drag changes only the polygon, as `DragVertex`; a hotspot drag only the hotspots, as `MoveHotspot` |
| FloorPlanDesigner.Designer.PointerUp | components/FloorPlanDesigner.tsx:274-277 | both drag fields are cleared and nothing else changes; pointer leave runs the same handler |
| FloorPlanDesigner.Designer.AddMarker | components/FloorPlanDesigner.tsx:279-295 | on a read-only canvas (no toolbar) or with no panoramas nothing changes; otherwise exactly one new marker is appended, the mode becomes place and the marker is selected; the polygon, drag and hover state are kept |
| FloorPlanDesigner.Designer.ClickedHotspot | components/FloorPlanDesigner.tsx:344-349 | in read-only mode a click reports the first hotspot within 25, and reports one exactly when one is within 25; an editable canvas reports nothing |
| FloorPlanDesigner.Designer.EditorOpen | components/FloorPlanDesigner.tsx:355 | the marker panel is open exactly on an editable canvas with a non-empty selected id |
| FloorPlanDesigner.Designer.SelectDrawMode | components/FloorPlanDesigner.tsx:304 | draw mode and an empty selection; the lists and the drag and hover state are kept |
| FloorPlanDesigner.Designer.SelectPlaceMode | components/FloorPlanDesigner.tsx:311 | place mode; the lists, the selection and the drag and hover state are kept |
| FloorPlanDesigner.Designer.Reset | components/FloorPlanDesigner.tsx:326 | a confirmed reset empties the polygon and the hotspots; a refused one changes neither; mode, selection, drag and hover state are kept either way |
| FloorPlanDesigner.Designer.EditPhotoId | components/FloorPlanDesigner.tsx:366-369 | with the editor open, the selected hotspot's panorama is set; the polygon, selection, mode, drag and hover state are kept |
| FloorPlanDesigner.Designer.EditLabel | components/FloorPlanDesigner.tsx:379-382 | with the editor open, the selected hotspot's label is set; the polygon, selection, mode, drag and hover state are kept |
| FloorPlanDesigner.Designer.DeleteMarker | components/FloorPlanDesigner.tsx:387-390 | with the editor open, the selected hotspot is removed as by `RemoveHotspot` and the selection emptied; the polygon, mode, drag and hover state are kept |
| FloorPlanDesigner.Designer.CloseEditor | components/FloorPlanDesigner.tsx:359 | the selection is emptied; the lists, mode, drag and hover state are kept |
| Viewer360.Clamp | components/Viewer360.tsx:96 | the result lies in the bounds, equals the input inside them and the nearer bound outside |
| Viewer360.ClampIdempotent | components/Viewer360.tsx:112 | clamping a clamped value changes nothing |
| Viewer360.ClampMonotone | components/Viewer360.tsx:95-96 | clamping preserves order |
| Viewer360.DraggedLon | components/Viewer360.tsx:84 | moving the pointer left of the press increases longitude, right decreases it, and returning restores it |
| Viewer360.DraggedLat | components/Viewer360.tsx:85 | moving the pointer below the press increases latitude, above decreases it, and returning restores it |
| Viewer360.DraggedLonInverse | components/Viewer360.tsx:84 | each longitude is produced by exactly one pointer x |
| Viewer360.DraggedLatInverse | components/Viewer360.tsx:85 | each latitude is produced by exactly one pointer y |
| Viewer360.WheelFov | components/Viewer360.tsx:95-96 | the zoomed field of view is always within [10, 130], and is `fov + 0.05 deltaY` when that is in range |
| Viewer360.WheelDirection | components/Viewer360.tsx:95-96 | from an in-range view, a positive delta never narrows it and a negative delta never widens it |
| Viewer360.Viewer.constructor | components/Viewer360.tsx:11-28 | longitude and latitude start at 0, not interacting, with the fov prop |
| Viewer360.Viewer.PointerDown | components/Viewer360.tsx:72-80 | a non-primary press changes nothing; a primary press starts interacting and records the pointer and the current orientation |
| Viewer360.Viewer.PointerMove | components/Viewer360.tsx:82-86 | while interacting, a primary move sets lon = (x0 - x)·0.1 + lon0 and lat = (y - y0)·0.1 + lat0; otherwise nothing changes |
| Viewer360.Viewer.PointerUp | components/Viewer360.tsx:88-91 | interacting stops; the orientation is kept |
| Viewer360.Viewer.Wheel | components/Viewer360.tsx:93-98 | fov becomes clamp(fov + 0.05 deltaY, 10, 130); the orientation, the interaction flag and the drag anchor are untouched |
| Viewer360.Viewer.Frame | components/Viewer360.tsx:112-114 | latitude is clamped to [-85, 85], so the polar angle stays within [5, 175] degrees; longitude, fov and the drag anchor are untouched |
| Viewer360.Viewer.SetFov | components/Viewer360.tsx:167-171 | the prop value is taken exactly, unclamped; the orientation and the drag anchor are untouched |
| Viewer360.ClickDoesNotTurn | components/Viewer360.tsx:72-98 | a press, render frames and a wheel zoom, then a move back to the press point, leave lon and lat exactly as they were; only the zoom changes fov |
| Viewer360.ReleaseStopsTurning | components/Viewer360.tsx:83-91 | after a release, a move leaves lon and lat unchanged |
| CustomerView.ImageUrl | components/CustomerView.tsx:84-92 | no panorama gives ""; day furnished gives `url`; day empty gives a non-empty `emptyUrl`, else `url`; night gives the non-empty night variant, else the non-empty day variant, else `url` |
| CustomerView.FirstNonEmpty | components/CustomerView.tsx:87-89 | the first present, non-empty candidate, and "" exactly when there is none |
| CustomerView.ImageUrlIsFirstNonEmpty | components/CustomerView.tsx:84-92 | the `\|\|` chain equals the first non-empty candidate in preference order |
| CustomerView.ImageUrlIsAField | components/CustomerView.tsx:84-92 | the shown image is one of the panorama's four image fields, and by day one of its two day fields |
| CustomerView.DayIgnoresNightFields | components/CustomerView.tsx:90-92 | the day image does not depend on the night fields |
| CustomerView.ImageUrlNeverBlank | components/CustomerView.tsx:84-92 | a panorama with a non-empty `url` is never shown blank |
| CustomerView.HotspotById | components/CustomerView.tsx:65 | the first marker in order with the id; none exactly when no marker has it |
| CustomerView.PhotoById | components/CustomerView.tsx:67 | the first panorama in order with the id; none exactly when no panorama has it |
| CustomerView.FirstHotspotFor | components/CustomerView.tsx:78 | the first marker in order leading to the panorama; none exactly when no marker does |
| CustomerView.PhotoThenHotspotRoundTrip | components/CustomerView.tsx:64-81 | with unique ids, selecting a panorama and then its highlighted marker leads back to the same panorama and marker |
| CustomerView.Tour.constructor | components/CustomerView.tsx:25-42 | nothing selected, day, furnished, fov 90, interface shown |
| CustomerView.Tour.CurrentImageUrl | components/CustomerView.tsx:83-93 | "" without a panorama; never blank for a panorama with a `url` |
| CustomerView.Tour.SelectApartment | components/CustomerView.tsx:342 | the listing's id becomes the selection; the listings, panorama, marker and viewing controls are kept |
| CustomerView.Tour.AutoInit | components/CustomerView.tsx:47-53 | with a listing open that has panoramas and none active, the first panorama and the first marker leading to it become active; otherwise nothing changes; the listings, selection and viewing controls are always kept |
| CustomerView.Tour.HotspotSelect | components/CustomerView.tsx:64-74 | a known marker whose panorama exists activates the first panorama with that id and the marker; otherwise neither changes; the listings, selection and viewing controls are kept |
| CustomerView.Tour.PhotoSelect | components/CustomerView.tsx:76-81 | the panorama becomes active and the highlighted marker is the first leading to it, or none; a highlighted marker always leads to it; the listings, selection and viewing controls are kept |
| CustomerView.Tour.Back | components/CustomerView.tsx:101 | selection, panorama and marker are cleared and clean view is left |
| CustomerView.Tour.SetFurniture | components/CustomerView.tsx:179-186 | sets the furnished toggle; every other field is kept |
| CustomerView.Tour.SetNightMode | components/CustomerView.tsx:197-204 | sets the night toggle; every other field is kept |
| CustomerView.Tour.SetFov | components/CustomerView.tsx:166 | sets the field of view passed to the viewer; every other field is kept |
| CustomerView.Tour.SetCleanView | components/CustomerView.tsx:119-126 | sets the clean-view toggle; every other field is kept |
| AdminView.Merge | components/AdminView.tsx:39 | `{ ...a, ...u }`: the id is kept, each present field replaces the listing's, each absent one is kept |
| AdminView.MergeNoUpdate | components/AdminView.tsx:39 | the empty update is the identity |
| AdminView.MergeIdempotent | components/AdminView.tsx:39 | an update applied twice is the update applied once |
| AdminView.MergeThen | components/AdminView.tsx:39 | two successive updates are one update in which the later field wins |
| AdminView.UpdateSelected | components/AdminView.tsx:37-40 | no (or an empty) selection changes nothing; otherwise only listings with the selected id are merged, with length, order and ids kept |
| AdminView.SetSlot | components/AdminView.tsx:63-69 | the named slot holds the data and every other slot, the id, name and description are unchanged |
| AdminView.SetSlotOwnValue | components/AdminView.tsx:63-69 | writing back a slot's own image changes nothing |
| AdminView.SetSlotTwice | components/AdminView.tsx:63-69 | a second upload to a slot replaces the first |
| AdminView.SetSlotCommutes | components/AdminView.tsx:63-69 | uploads to two different slots commute |
| AdminView.UploadToSlot | components/AdminView.tsx:61-72 | only panoramas with the id get the slot set; all others and the order are kept |
| AdminView.BaseName | components/AdminView.tsx:54 | `split('.')[0]`: the longest prefix of the file name without a dot |
| AdminView.NewPhoto | components/AdminView.tsx:51-56 | the new panorama has the data as its day image, no other variants, the base name and the fixed description |
| AdminView.NewListing | components/AdminView.tsx:89-93 | the new listing has the defaults, rooms 0 and no panoramas, points or hotspots |
| AdminView.RemoveListing | components/AdminView.tsx:145 | no listing with the selected id remains; every other listing is kept, in order and as often as it occurred; none is added |
| AdminView.RenamePhotoIn | components/AdminView.tsx:202 | only matching panoramas get the name; all others and the order are kept |
| AdminView.RemovePhotoIn | components/AdminView.tsx:204 | no matching panorama remains; every other panorama is kept, in order and as often as it occurred; none is added |
| AdminView.RemovePhotoLeavesDanglingHotspot | components/AdminView.tsx:204 | deleting a panorama of the open listing keeps the length of the list and every listing's markers, while the panorama is gone from the open listing, so a marker leading to it is left dangling |
| AdminView.Admin.constructor | components/AdminView.tsx:8-20 | loaded listings, nothing selected |
| AdminView.Admin.SelectApartment | components/AdminView.tsx:106 | the listing's id becomes the selection |
| AdminView.Admin.Update | components/AdminView.tsx:37-40 | the list becomes `UpdateSelected` of the old list |
| AdminView.Admin.Upload | components/AdminView.tsx:42-78 | with no listing open nothing changes; without a panorama id a new panorama is appended to the open listing; with one, that panorama's slot is set |
| AdminView.Admin.NewApartment | components/AdminView.tsx:88-96 | exactly one default listing is appended and it becomes the open listing |
| AdminView.Admin.DeleteListing | components/AdminView.tsx:145 | a confirmed delete removes every listing with the selected id and clears the selection; a refused one changes nothing |
| AdminView.Admin.RenamePhoto | components/AdminView.tsx:202 | the open listing's panoramas become `RenamePhotoIn` of them |
| AdminView.Admin.DeletePhoto | components/AdminView.tsx:204 | the open listing's panoramas become `RemovePhotoIn` of them |

## Left out

- Rendering is not modelled:
  - the canvas `draw()` routine;
  - all JSX layout;
  - `scrollIntoView`;
  - the sheet toggles that depend on `window.innerWidth`;
  - the save-status indicator.
- `getCanvasCoords` is not modelled: its DOM bounding-rectangle scaling is replaced by canvas coordinates as inputs.
- The global Shift key listeners are not modelled; Shift is a parameter.
- Random id generation, `alert` and `confirm` are replaced by parameters.
- The 100 ms `setTimeout` before a new marker is selected is not modelled. FloorPlanDesigner.Designer.AddMarker selects immediately.
- The Three.js scene, renderer, render-loop scheduling and the sin/cos look-at target are not modelled. Viewer360.Viewer.Frame returns the polar and azimuth angles in degrees instead.
- Texture loading and swapping, window resize and DOM cleanup are not modelled. They are library and browser callbacks.
- Persistence (`services/storage.ts`, the save handler) is not modelled: it is IndexedDB I/O. Loaded listings are constructor parameters.
- `FileReader` is not modelled: file contents arrive as an already-read data URL string. The `if (!file) return` guard is therefore not modelled.
- The panorama viewer's press handler has no "already dragging" check. A second primary press re-anchors the drag, and Viewer360.Viewer.PointerDown models exactly that.
- ArrayOps.WriteAt: assignment past the end of a JavaScript array leaves holes. The model cannot represent holes and leaves the list unchanged. This happens only for a drag index left stale after a vertex was removed elsewhere.
- FloorPlanDesigner.Designer.PointerMove: a Shift-drag on an empty polygon throws in the source. The model leaves the state unchanged instead.
- AdminView.Admin.Upload: the slot upload dereferences the open listing unguarded, so with none open it throws. The model leaves the state unchanged.
- AdminView.Admin.Upload, AdminView.Admin.RenamePhoto, AdminView.Admin.DeletePhoto: the source builds the new panorama list from the listing captured at render time. The model uses the listing current at the call. The two agree unless two updates interleave before a re-render.
- AdminView.Merge: `Partial<Apartment>` can also carry an `id`. No caller passes one, so the update record has no id field.
- The floor-plan editor's `onUpdatePoints`/`onUpdateHotspots` callbacks in the listing editor are `Update` calls with a points or hotspots update, so they have no members of their own.
- The edit panel's displayed values (the selected marker's panorama and label) are rendering only.
