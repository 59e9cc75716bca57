/** The listing editor (components/AdminView.tsx): the record updates behind
    its forms, uploads and buttons, and the list and selection they overwrite.
    File contents arrive already read, as a data URL string; generated ids and
    dialog answers are parameters. */
module AdminView {
  import opened Types
  import opened ArrayOps
  import opened Listings

  /** The record a new upload creates is described as this. */
  const NewPhotoDescription: string := "New 360 view"

  /** The defaults of a new listing. */
  const NewTitle: string := "New Listing"
  const NewPrice: string := "$0"
  const NewLocation: string := "City, State"
  const NewArea: string := "0 sqm"
  const NewMainImage: string := "https://picsum.photos/seed/new/800/600"

  /** `Partial<Apartment>` as the editor uses it: each present field replaces
      the listing's own. */
  datatype AptUpdate = AptUpdate(
    title: Option<string>,
    price: Option<string>,
    location: Option<string>,
    description: Option<string>,
    area: Option<string>,
    rooms: Option<real>,
    mainImage: Option<string>,
    photos: Option<seq<Photo>>,
    floorPlanPoints: Option<seq<Point>>,
    hotspots: Option<seq<Hotspot>>)

  /** The empty update `{}`. */
  const NoUpdate: AptUpdate := AptUpdate(None, None, None, None, None, None, None, None, None, None)

  /** `{}` with only `photos` present. */
  function PhotosUpdate(photos: seq<Photo>): AptUpdate {
    NoUpdate.(photos := Some(photos))
  }

  function Pick<T>(o: Option<T>, d: T): T {
    if o.Some? then o.value else d
  }

  /** `{ ...a, ...u }`: the id never changes, a present field takes the update's
      value and an absent one keeps the listing's. */
  function Merge(a: Apartment, u: AptUpdate): (r: Apartment)
    ensures r.id == a.id
    ensures r.title == (if u.title.Some? then u.title.value else a.title)
    ensures r.price == (if u.price.Some? then u.price.value else a.price)
    ensures r.location == (if u.location.Some? then u.location.value else a.location)
    ensures r.description == (if u.description.Some? then u.description.value else a.description)
    ensures r.area == (if u.area.Some? then u.area.value else a.area)
    ensures r.rooms == (if u.rooms.Some? then u.rooms.value else a.rooms)
    ensures r.mainImage == (if u.mainImage.Some? then u.mainImage.value else a.mainImage)
    ensures r.photos == (if u.photos.Some? then u.photos.value else a.photos)
    ensures r.floorPlanPoints == (if u.floorPlanPoints.Some? then u.floorPlanPoints.value else a.floorPlanPoints)
    ensures r.hotspots == (if u.hotspots.Some? then u.hotspots.value else a.hotspots)
  {
    a.(title := Pick(u.title, a.title), price := Pick(u.price, a.price),
       location := Pick(u.location, a.location), description := Pick(u.description, a.description),
       area := Pick(u.area, a.area), rooms := Pick(u.rooms, a.rooms),
       mainImage := Pick(u.mainImage, a.mainImage), photos := Pick(u.photos, a.photos),
       floorPlanPoints := Pick(u.floorPlanPoints, a.floorPlanPoints), hotspots := Pick(u.hotspots, a.hotspots))
  }

  /** `{ ...u, ...v }`: the later update wins field by field. */
  function Then(u: AptUpdate, v: AptUpdate): AptUpdate {
    AptUpdate(
      if v.title.Some? then v.title else u.title,
      if v.price.Some? then v.price else u.price,
      if v.location.Some? then v.location else u.location,
      if v.description.Some? then v.description else u.description,
      if v.area.Some? then v.area else u.area,
      if v.rooms.Some? then v.rooms else u.rooms,
      if v.mainImage.Some? then v.mainImage else u.mainImage,
      if v.photos.Some? then v.photos else u.photos,
      if v.floorPlanPoints.Some? then v.floorPlanPoints else u.floorPlanPoints,
      if v.hotspots.Some? then v.hotspots else u.hotspots)
  }

  /** The empty update leaves a listing as it is. */
  lemma MergeNoUpdate(a: Apartment)
    ensures Merge(a, NoUpdate) == a
  {
  }

  /** Applying the same update twice is applying it once. */
  lemma MergeIdempotent(a: Apartment, u: AptUpdate)
    ensures Merge(Merge(a, u), u) == Merge(a, u)
  {
  }

  /** Two updates in a row are the one combined update. */
  lemma MergeThen(a: Apartment, u: AptUpdate, v: AptUpdate)
    ensures Merge(Merge(a, u), v) == Merge(a, Then(u, v))
  {
  }

  /** `prev.map(a => a.id === selectedAptId ? { ...a, ...updates } : a)` behind
      the `!selectedAptId` guard: with no (or an empty) selection nothing
      changes; otherwise every listing with the selected id is merged and all
      others, the order and the length are kept. */
  function UpdateSelected(apartments: seq<Apartment>, selectedAptId: Option<string>, u: AptUpdate): (r: seq<Apartment>)
    ensures !Truthy(selectedAptId) ==> r == apartments
    ensures |r| == |apartments|
    ensures forall i :: 0 <= i < |r| ==>
      r[i] == if Truthy(selectedAptId) && apartments[i].id == selectedAptId.value
              then Merge(apartments[i], u) else apartments[i]
    ensures forall i :: 0 <= i < |r| ==> r[i].id == apartments[i].id
  {
    if !Truthy(selectedAptId) then apartments
    else MapWhere(apartments, (a: Apartment) => a.id == selectedAptId.value, (a: Apartment) => Merge(a, u))
  }

  /** The upload types of one panorama's four image slots. */
  datatype Slot = Day | Night | DayEmpty | NightEmpty

  /** The image a slot holds. */
  function SlotValue(p: Photo, slot: Slot): Option<string> {
    match slot
    case Day => Some(p.url)
    case Night => p.nightUrl
    case DayEmpty => p.emptyUrl
    case NightEmpty => p.emptyNightUrl
  }

  /** The `switch(type)` of the slot upload: exactly the named slot takes the data. */
  function SetSlot(p: Photo, slot: Slot, data: string): (r: Photo)
    ensures SlotValue(r, slot) == Some(data)
    ensures forall s :: s != slot ==> SlotValue(r, s) == SlotValue(p, s)
    ensures r.id == p.id && r.name == p.name && r.description == p.description
  {
    match slot
    case Day => p.(url := data)
    case Night => p.(nightUrl := Some(data))
    case DayEmpty => p.(emptyUrl := Some(data))
    case NightEmpty => p.(emptyNightUrl := Some(data))
  }

  /** Writing back what a slot already holds changes nothing. */
  lemma SetSlotOwnValue(p: Photo, slot: Slot)
    requires SlotValue(p, slot).Some?
    ensures SetSlot(p, slot, SlotValue(p, slot).value) == p
  {
  }

  /** A second upload to the same slot replaces the first. */
  lemma SetSlotTwice(p: Photo, slot: Slot, d1: string, d2: string)
    ensures SetSlot(SetSlot(p, slot, d1), slot, d2) == SetSlot(p, slot, d2)
  {
  }

  /** Uploads to different slots do not interfere: their order does not matter. */
  lemma SetSlotCommutes(p: Photo, s1: Slot, s2: Slot, d1: string, d2: string)
    requires s1 != s2
    ensures SetSlot(SetSlot(p, s1, d1), s2, d2) == SetSlot(SetSlot(p, s2, d2), s1, d1)
  {
  }

  /** `photos.map(p => p.id === photoId ? <slot set> : p)`. */
  function UploadToSlot(photos: seq<Photo>, photoId: string, slot: Slot, data: string): (r: seq<Photo>)
    ensures |r| == |photos|
    ensures forall i :: 0 <= i < |r| ==>
      r[i] == if photos[i].id == photoId then SetSlot(photos[i], slot, data) else photos[i]
  {
    MapWhere(photos, (p: Photo) => p.id == photoId, (p: Photo) => SetSlot(p, slot, data))
  }

  /** `name.split('.')[0]`: the file name up to its first dot. */
  function BaseName(name: string): (r: string)
    ensures |r| <= |name| && r == name[..|r|]
    ensures '.' !in r
    ensures |r| < |name| ==> name[|r|] == '.'
  {
    if |name| == 0 || name[0] == '.' then ""
    else [name[0]] + BaseName(name[1..])
  }

  /** The record a new-panorama upload creates: the data as its day image and
      no other variants. */
  function NewPhoto(id: string, fileName: string, data: string): (p: Photo)
    ensures p.id == id && p.url == data && p.name == BaseName(fileName)
    ensures p.description == NewPhotoDescription
    ensures p.emptyUrl.None? && p.nightUrl.None? && p.emptyNightUrl.None?
  {
    Photo(id, data, None, None, None, BaseName(fileName), NewPhotoDescription)
  }

  /** The record the New Apartment button creates. */
  function NewListing(id: string): (a: Apartment)
    ensures a.id == id && a.rooms == 0.0
    ensures a.photos == [] && a.floorPlanPoints == [] && a.hotspots == []
    ensures a.title == NewTitle && a.price == NewPrice && a.location == NewLocation
    ensures a.description == "" && a.area == NewArea && a.mainImage == NewMainImage
  {
    Apartment(id, NewTitle, NewPrice, NewLocation, "", NewArea, 0.0, NewMainImage, [], [], [])
  }

  /** `prev.filter(a => a.id !== selectedAptId)`: every listing with the id goes,
      the others stay, in their order and as often as they occurred; a null
      selection matches nothing. */
  function RemoveListing(apartments: seq<Apartment>, selectedAptId: Option<string>): (r: seq<Apartment>)
    ensures selectedAptId.Some? ==> forall a :: a in r ==> a.id != selectedAptId.value
    ensures forall a :: a in r ==> a in apartments
    ensures forall a :: a in apartments && Some(a.id) != selectedAptId ==> a in r
    ensures forall a :: multiset(r)[a] == if Some(a.id) != selectedAptId then multiset(apartments)[a] else 0
    ensures Subsequence(r, apartments)
  {
    var keep := (a: Apartment) => Some(a.id) != selectedAptId;
    FilterKeepsOrder(apartments, keep);
    var r := Filter(apartments, keep);
    assert forall a :: a in r <==> multiset(r)[a] > 0;
    r
  }

  /** `photos.map(ph => ph.id === photoId ? { ...ph, name } : ph)`. */
  function RenamePhotoIn(photos: seq<Photo>, photoId: string, name: string): (r: seq<Photo>)
    ensures |r| == |photos|
    ensures forall i :: 0 <= i < |r| ==>
      r[i] == if photos[i].id == photoId then photos[i].(name := name) else photos[i]
  {
    MapWhere(photos, (p: Photo) => p.id == photoId, (p: Photo) => p.(name := name))
  }

  /** `photos.filter(ph => ph.id !== photoId)`: every panorama with the id goes,
      the others stay, in their order and as often as they occurred. */
  function RemovePhotoIn(photos: seq<Photo>, photoId: string): (r: seq<Photo>)
    ensures forall p :: p in r ==> p.id != photoId && p in photos
    ensures forall p :: p in photos && p.id != photoId ==> p in r
    ensures forall p :: multiset(r)[p] == if p.id != photoId then multiset(photos)[p] else 0
    ensures Subsequence(r, photos)
  {
    var keep := (p: Photo) => p.id != photoId;
    FilterKeepsOrder(photos, keep);
    var r := Filter(photos, keep);
    assert forall p :: p in r <==> multiset(r)[p] > 0;
    r
  }

  /** Deleting a panorama of the open listing (`DeletePhoto`) leaves every
      listing's hotspots alone while the panorama is gone from the open one,
      so a marker may be left pointing at a panorama that no longer exists. */
  lemma RemovePhotoLeavesDanglingHotspot(apartments: seq<Apartment>, selectedAptId: Option<string>, photoId: string)
    requires SelectedApartment(apartments, selectedAptId).Some?
    ensures var r := UpdateSelected(apartments, selectedAptId,
                                    PhotosUpdate(RemovePhotoIn(SelectedApartment(apartments, selectedAptId).value.photos, photoId)));
      |r| == |apartments| &&
      (forall i :: 0 <= i < |r| ==> r[i].hotspots == apartments[i].hotspots) &&
      (Truthy(selectedAptId) ==>
         forall i :: 0 <= i < |r| && r[i].id == selectedAptId.value ==>
           forall p :: p in r[i].photos ==> p.id != photoId)
  {
  }

  /** The editor's state. */
  class Admin {
    var apartments: seq<Apartment>
    var selectedAptId: Option<string>

    /** Mounting, with the listings the storage load delivers. */
    constructor (loaded: seq<Apartment>)
      ensures apartments == loaded && selectedAptId == None
    {
      apartments := loaded;
      selectedAptId := None;
    }

    /** `apartments.find(a => a.id === selectedAptId)`. */
    function Selected(): Option<Apartment>
      reads this
    {
      SelectedApartment(apartments, selectedAptId)
    }

    /** A sidebar entry. */
    method SelectApartment(id: string)
      modifies this
      ensures selectedAptId == Some(id) && apartments == old(apartments)
    {
      selectedAptId := Some(id);
    }

    /** `updateSelectedApt`, which every form field and the floor-plan editor's
        updates go through. */
    method Update(u: AptUpdate)
      modifies this
      ensures apartments == UpdateSelected(old(apartments), selectedAptId, u)
      ensures selectedAptId == old(selectedAptId)
    {
      apartments := UpdateSelected(apartments, selectedAptId, u);
    }

    /** The upload callback. Without a photo id (or with an empty one) it adds a
        new panorama to the open listing, if any; with one it sets that
        panorama's slot. The slot path reads the open listing unguarded: with
        none open it throws before any update. */
    method Upload(photoId: Option<string>, slot: Slot, newId: string, fileName: string, data: string)
      modifies this
      ensures selectedAptId == old(selectedAptId)
      ensures old(Selected()).None? ==> apartments == old(apartments)
      ensures old(Selected()).Some? && !Truthy(photoId) ==>
        apartments == UpdateSelected(old(apartments), selectedAptId,
                                     PhotosUpdate(old(Selected()).value.photos + [NewPhoto(newId, fileName, data)]))
      ensures old(Selected()).Some? && Truthy(photoId) ==>
        apartments == UpdateSelected(old(apartments), selectedAptId,
                                     PhotosUpdate(UploadToSlot(old(Selected()).value.photos, photoId.value, slot, data)))
    {
      var apt := Selected();
      if apt.None? {
        return;
      }
      if !Truthy(photoId) {
        Update(PhotosUpdate(apt.value.photos + [NewPhoto(newId, fileName, data)]));
      } else {
        Update(PhotosUpdate(UploadToSlot(apt.value.photos, photoId.value, slot, data)));
      }
    }

    /** The New Apartment button: appends a default listing and opens it. */
    method NewApartment(id: string)
      modifies this
      ensures apartments == old(apartments) + [NewListing(id)]
      ensures selectedAptId == Some(id)
      ensures Selected().Some?
    {
      apartments := apartments + [NewListing(id)];
      selectedAptId := Some(id);
      assert apartments[|apartments| - 1] in apartments;
    }

    /** The Delete Listing button, `confirmed` being the dialog's answer. */
    method DeleteListing(confirmed: bool)
      modifies this
      ensures confirmed ==> apartments == RemoveListing(old(apartments), old(selectedAptId)) && selectedAptId == None
      ensures !confirmed ==> apartments == old(apartments) && selectedAptId == old(selectedAptId)
    {
      if confirmed {
        apartments := RemoveListing(apartments, selectedAptId);
        selectedAptId := None;
      }
    }

    /** A panorama's name field. */
    method RenamePhoto(photoId: string, name: string)
      modifies this
      ensures old(Selected()).None? ==> apartments == old(apartments)
      ensures old(Selected()).Some? ==>
        apartments == UpdateSelected(old(apartments), selectedAptId,
                                     PhotosUpdate(RenamePhotoIn(old(Selected()).value.photos, photoId, name)))
      ensures selectedAptId == old(selectedAptId)
    {
      var apt := Selected();
      if apt.Some? {
        Update(PhotosUpdate(RenamePhotoIn(apt.value.photos, photoId, name)));
      }
    }

    /** A panorama's delete button. */
    method DeletePhoto(photoId: string)
      modifies this
      ensures old(Selected()).None? ==> apartments == old(apartments)
      ensures old(Selected()).Some? ==>
        apartments == UpdateSelected(old(apartments), selectedAptId,
                                     PhotosUpdate(RemovePhotoIn(old(Selected()).value.photos, photoId)))
      ensures selectedAptId == old(selectedAptId)
    {
      var apt := Selected();
      if apt.Some? {
        Update(PhotosUpdate(RemovePhotoIn(apt.value.photos, photoId)));
      }
    }
  }
}
