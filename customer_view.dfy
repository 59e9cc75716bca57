/** The public tour page (components/CustomerView.tsx): which panorama image is
    shown for the day/night and furnished/empty toggles, how hotspots and
    panoramas find each other, and the page's selection state. */
module CustomerView {
  import opened Types
  import opened ArrayOps
  import opened Listings

  /** The field of view the page starts with. */
  const InitialFov: real := 90.0

  /** `showFurniture ? photo.url : photo.emptyUrl`. */
  function DayVariant(p: Photo, furnished: bool): Option<string> {
    if furnished then Some(p.url) else p.emptyUrl
  }

  /** `showFurniture ? photo.nightUrl : photo.emptyNightUrl`. */
  function NightVariant(p: Photo, furnished: bool): Option<string> {
    if furnished then p.nightUrl else p.emptyNightUrl
  }

  /** The image handed to the viewer. Without an active panorama it is empty.
      By day the furnished view is `url` and the empty view falls back to `url`;
      by night the night variant falls back to the day variant and then to
      `url`. An empty string counts as absent at every step. */
  function ImageUrl(active: Option<Photo>, night: bool, furnished: bool): (r: string)
    ensures active.None? ==> r == ""
    ensures active.Some? && !night && furnished ==> r == active.value.url
    ensures active.Some? && !night && !furnished ==>
      r == if Truthy(active.value.emptyUrl) then active.value.emptyUrl.value else active.value.url
    ensures active.Some? && night && Truthy(NightVariant(active.value, furnished)) ==>
      r == NightVariant(active.value, furnished).value
    ensures active.Some? && night && !Truthy(NightVariant(active.value, furnished)) ==>
      r == if Truthy(DayVariant(active.value, furnished)) then DayVariant(active.value, furnished).value
           else active.value.url
  {
    match active
    case None => ""
    case Some(p) =>
      if night then OrElse(NightVariant(p, furnished), OrElse(DayVariant(p, furnished), p.url))
      else OrElse(DayVariant(p, furnished), p.url)
  }

  /** An independent statement of the rule: the first non-empty candidate in
      order of preference, or the empty string when there is none. */
  function FirstNonEmpty(candidates: seq<Option<string>>): (r: string)
    ensures r != "" <==> exists i :: 0 <= i < |candidates| && Truthy(candidates[i])
    ensures r != "" ==>
      exists i :: (0 <= i < |candidates| && candidates[i] == Some(r) &&
                   forall j :: 0 <= j < i ==> !Truthy(candidates[j]))
  {
    match FindIndex(candidates, Truthy)
    case None => ""
    case Some(i) => candidates[i].value
  }

  /** The candidates in order of preference for the given toggles. */
  function Candidates(p: Photo, night: bool, furnished: bool): seq<Option<string>> {
    if night then [NightVariant(p, furnished), DayVariant(p, furnished), Some(p.url)]
    else [DayVariant(p, furnished), Some(p.url)]
  }

  /** The `||` chain picks the first non-empty candidate: when every candidate
      is empty the chain ends in `url`, which is then itself empty. */
  lemma ImageUrlIsFirstNonEmpty(p: Photo, night: bool, furnished: bool)
    ensures ImageUrl(Some(p), night, furnished) == FirstNonEmpty(Candidates(p, night, furnished))
  {
    var c := Candidates(p, night, furnished);
    if night {
      if !Truthy(c[0]) && !Truthy(c[1]) && !Truthy(c[2]) {
        assert forall j :: 0 <= j < |c| ==> !Truthy(c[j]);
      }
    } else {
      if !Truthy(c[0]) && !Truthy(c[1]) {
        assert forall j :: 0 <= j < |c| ==> !Truthy(c[j]);
      }
    }
  }

  /** The shown image is always one of the panorama's four image fields, and
      by day one of the two day fields. */
  lemma ImageUrlIsAField(p: Photo, night: bool, furnished: bool)
    ensures var r := ImageUrl(Some(p), night, furnished);
      r == p.url || Some(r) == p.emptyUrl || (night && (Some(r) == p.nightUrl || Some(r) == p.emptyNightUrl))
  {
  }

  /** The day image does not depend on the night fields. */
  lemma DayIgnoresNightFields(p: Photo, furnished: bool, nightUrl: Option<string>, emptyNightUrl: Option<string>)
    ensures ImageUrl(Some(p), false, furnished) ==
            ImageUrl(Some(p.(nightUrl := nightUrl, emptyNightUrl := emptyNightUrl)), false, furnished)
  {
  }

  /** A panorama with a non-empty `url` is never shown blank. */
  lemma ImageUrlNeverBlank(p: Photo, night: bool, furnished: bool)
    requires p.url != ""
    ensures ImageUrl(Some(p), night, furnished) != ""
  {
  }

  /** `apt.hotspots.find(h => h.id === id)`. */
  function HotspotById(apt: Apartment, id: string): (r: Option<Hotspot>)
    ensures r.Some? ==> r.value in apt.hotspots && r.value.id == id
    ensures r.None? <==> forall h :: h in apt.hotspots ==> h.id != id
    ensures r.Some? ==>
      exists i :: (0 <= i < |apt.hotspots| && apt.hotspots[i] == r.value &&
                   forall j :: 0 <= j < i ==> apt.hotspots[j].id != id)
  {
    Find(apt.hotspots, (h: Hotspot) => h.id == id)
  }

  /** `apt.photos.find(p => p.id === photoId)`. */
  function PhotoById(apt: Apartment, photoId: string): (r: Option<Photo>)
    ensures r.Some? ==> r.value in apt.photos && r.value.id == photoId
    ensures r.None? <==> forall p :: p in apt.photos ==> p.id != photoId
    ensures r.Some? ==>
      exists i :: (0 <= i < |apt.photos| && apt.photos[i] == r.value &&
                   forall j :: 0 <= j < i ==> apt.photos[j].id != photoId)
  {
    Find(apt.photos, (p: Photo) => p.id == photoId)
  }

  /** `apt.hotspots.find(h => h.photoId === photoId)`: the first marker leading
      to the given panorama. */
  function FirstHotspotFor(apt: Apartment, photoId: string): (r: Option<Hotspot>)
    ensures r.Some? ==> r.value.photoId == photoId
    ensures r.Some? ==>
      exists i :: (0 <= i < |apt.hotspots| && apt.hotspots[i] == r.value &&
                   forall j :: 0 <= j < i ==> apt.hotspots[j].photoId != photoId)
    ensures r.None? <==> forall h :: h in apt.hotspots ==> h.photoId != photoId
  {
    match FindIndex(apt.hotspots, (h: Hotspot) => h.photoId == photoId)
    case None => None
    case Some(i) => Some(apt.hotspots[i])
  }

  /** Ids are unique within a list of hotspots or photos. */
  predicate UniqueHotspotIds(hs: seq<Hotspot>) {
    forall i, j :: 0 <= i < j < |hs| ==> hs[i].id != hs[j].id
  }

  predicate UniquePhotoIds(ps: seq<Photo>) {
    forall i, j :: 0 <= i < j < |ps| ==> ps[i].id != ps[j].id
  }

  /** With unique ids, choosing a panorama and then clicking the marker that
      choice highlighted leads back to the same panorama and marker. */
  lemma PhotoThenHotspotRoundTrip(apt: Apartment, p: Photo)
    requires UniqueHotspotIds(apt.hotspots) && UniquePhotoIds(apt.photos)
    requires p in apt.photos
    requires FirstHotspotFor(apt, p.id).Some?
    ensures var h := FirstHotspotFor(apt, p.id).value;
      HotspotById(apt, h.id) == Some(h) && PhotoById(apt, h.photoId) == Some(p)
  {
    var h := FirstHotspotFor(apt, p.id).value;
    var h' := HotspotById(apt, h.id).value;
    var i :| 0 <= i < |apt.hotspots| && apt.hotspots[i] == h;
    var i' :| 0 <= i' < |apt.hotspots| && apt.hotspots[i'] == h';
    assert i == i';
    var q := PhotoById(apt, h.photoId).value;
    var k :| 0 <= k < |apt.photos| && apt.photos[k] == p;
    var k' :| 0 <= k' < |apt.photos| && apt.photos[k'] == q;
    assert k == k';
  }

  /** The page's state. `activeHotspotId` is `None` for `undefined`. */
  class Tour {
    var apartments: seq<Apartment>
    var selectedAptId: Option<string>
    var activePhoto: Option<Photo>
    var activeHotspotId: Option<string>
    var showFurniture: bool
    var isNightMode: bool
    var fov: real
    var isCleanView: bool

    /** Mounting, with the listings the storage load delivers. */
    constructor (loaded: seq<Apartment>)
      ensures apartments == loaded && selectedAptId == None && activePhoto == None
      ensures activeHotspotId == None && showFurniture && !isNightMode
      ensures fov == InitialFov && !isCleanView
    {
      apartments := loaded;
      selectedAptId, activePhoto, activeHotspotId := None, None, None;
      showFurniture, isNightMode := true, false;
      fov := InitialFov;
      isCleanView := false;
    }

    function Selected(): Option<Apartment>
      reads this
    {
      SelectedApartment(apartments, selectedAptId)
    }

    /** The viewing controls (furnished, night, field of view, clean view) are
        as they were before the call. */
    twostate predicate ControlsKept()
      reads this
    {
      showFurniture == old(showFurniture) && isNightMode == old(isNightMode) &&
      fov == old(fov) && isCleanView == old(isCleanView)
    }

    /** The listings, the open listing, the panorama and the highlighted marker
        are as they were before the call. */
    twostate predicate PlaceKept()
      reads this
    {
      apartments == old(apartments) && selectedAptId == old(selectedAptId) &&
      activePhoto == old(activePhoto) && activeHotspotId == old(activeHotspotId)
    }

    /** The image the viewer shows. */
    function CurrentImageUrl(): (r: string)
      reads this
      ensures activePhoto.None? ==> r == ""
      ensures activePhoto.Some? && activePhoto.value.url != "" ==> r != ""
    {
      ImageUrl(activePhoto, isNightMode, showFurniture)
    }

    /** The "Enter Virtual Home" button of a listing card. */
    method SelectApartment(id: string)
      modifies this
      ensures selectedAptId == Some(id)
      ensures apartments == old(apartments) && activePhoto == old(activePhoto)
      ensures activeHotspotId == old(activeHotspotId)
      ensures ControlsKept()
    {
      selectedAptId := Some(id);
    }

    /** The effect that, once a listing with panoramas is open and none is
        active, opens its first panorama and highlights the first marker
        leading to it. */
    method AutoInit()
      modifies this
      ensures var a := old(Selected());
        if a.Some? && |a.value.photos| > 0 && old(activePhoto).None? then
          activePhoto == Some(a.value.photos[0]) &&
          activeHotspotId == (match FirstHotspotFor(a.value, a.value.photos[0].id)
                              case None => None
                              case Some(h) => Some(h.id))
        else
          activePhoto == old(activePhoto) && activeHotspotId == old(activeHotspotId)
      ensures apartments == old(apartments) && selectedAptId == old(selectedAptId)
      ensures ControlsKept()
    {
      var a := Selected();
      if a.Some? && |a.value.photos| > 0 && activePhoto.None? {
        activePhoto := Some(a.value.photos[0]);
        var first := FirstHotspotFor(a.value, a.value.photos[0].id);
        activeHotspotId := if first.Some? then Some(first.value.id) else None;
      }
    }

    /** `handleHotspotSelect`: a known marker whose panorama exists opens that
        panorama and becomes the highlighted marker; otherwise nothing changes. */
    method HotspotSelect(id: string)
      modifies this
      ensures var a := old(Selected());
        if a.Some? && HotspotById(a.value, id).Some? &&
           PhotoById(a.value, HotspotById(a.value, id).value.photoId).Some? then
          activePhoto == PhotoById(a.value, HotspotById(a.value, id).value.photoId) &&
          activeHotspotId == Some(id)
        else
          activePhoto == old(activePhoto) && activeHotspotId == old(activeHotspotId)
      ensures apartments == old(apartments) && selectedAptId == old(selectedAptId)
      ensures ControlsKept()
    {
      var a := Selected();
      if a.Some? {
        var spot := HotspotById(a.value, id);
        if spot.Some? {
          var photo := PhotoById(a.value, spot.value.photoId);
          if photo.Some? {
            activePhoto := photo;
            activeHotspotId := Some(id);
          }
        }
      }
    }

    /** `handlePhotoSelect`: opens the panorama and highlights the first marker
        leading to it, or none. */
    method PhotoSelect(photo: Photo)
      modifies this
      ensures activePhoto == Some(photo)
      ensures var a := old(Selected());
        activeHotspotId == if a.None? then None
                           else match FirstHotspotFor(a.value, photo.id)
                                case None => None
                                case Some(h) => Some(h.id)
      ensures activeHotspotId.Some? ==>
        exists h :: (h in old(Selected()).value.hotspots && h.id == activeHotspotId.value && h.photoId == photo.id)
      ensures apartments == old(apartments) && selectedAptId == old(selectedAptId)
      ensures ControlsKept()
    {
      activePhoto := Some(photo);
      var a := Selected();
      if a.Some? {
        var related := FirstHotspotFor(a.value, photo.id);
        activeHotspotId := if related.Some? then Some(related.value.id) else None;
      } else {
        activeHotspotId := None;
      }
    }

    /** The Back button: leaves the listing and clean view. */
    method Back()
      modifies this
      ensures selectedAptId == None && activePhoto == None && activeHotspotId == None && !isCleanView
      ensures Selected() == None
      ensures apartments == old(apartments) && fov == old(fov)
      ensures showFurniture == old(showFurniture) && isNightMode == old(isNightMode)
    {
      selectedAptId, activePhoto, activeHotspotId := None, None, None;
      isCleanView := false;
    }

    /** The furnished/empty, day/night, field-of-view and clean-view controls:
        each sets its own field and nothing else. */
    method SetFurniture(on: bool)
      modifies this
      ensures showFurniture == on
      ensures isNightMode == old(isNightMode) && fov == old(fov) && isCleanView == old(isCleanView)
      ensures PlaceKept()
    {
      showFurniture := on;
    }

    method SetNightMode(on: bool)
      modifies this
      ensures isNightMode == on
      ensures showFurniture == old(showFurniture) && fov == old(fov) && isCleanView == old(isCleanView)
      ensures PlaceKept()
    {
      isNightMode := on;
    }

    method SetFov(v: real)
      modifies this
      ensures fov == v
      ensures showFurniture == old(showFurniture) && isNightMode == old(isNightMode) && isCleanView == old(isCleanView)
      ensures PlaceKept()
    {
      fov := v;
    }

    method SetCleanView(on: bool)
      modifies this
      ensures isCleanView == on
      ensures showFurniture == old(showFurniture) && isNightMode == old(isNightMode) && fov == old(fov)
      ensures PlaceKept()
    {
      isCleanView := on;
    }
  }
}
