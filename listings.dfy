/** The lookup both pages use to find the open listing. */
module Listings {
  import opened Types
  import opened ArrayOps

  /** `apartments.find(a => a.id === selectedAptId)`; a null selection matches nothing. */
  function SelectedApartment(apartments: seq<Apartment>, selectedAptId: Option<string>): (r: Option<Apartment>)
    ensures selectedAptId.None? ==> r.None?
    ensures r.Some? ==> r.value in apartments && Some(r.value.id) == selectedAptId
    ensures selectedAptId.Some? && r.None? ==> forall a :: a in apartments ==> a.id != selectedAptId.value
    ensures r.Some? ==>
      exists i :: (0 <= i < |apartments| && apartments[i] == r.value &&
                   forall j :: 0 <= j < i ==> Some(apartments[j].id) != selectedAptId)
  {
    Find(apartments, (a: Apartment) => selectedAptId.Some? && a.id == selectedAptId.value)
  }
}
