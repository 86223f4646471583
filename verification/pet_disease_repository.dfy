/** Append-only diagnosis history: for each pet, the diseases it was diagnosed
    with, in order. */
module PetDiseaseRepository {
  import opened Model

  datatype PetDiseaseStore = PetDiseaseStore(memory: map<PetId, seq<DiseaseId>>)

  function Empty(): PetDiseaseStore
  {
    PetDiseaseStore(map[])
  }

  /** The diagnosis history of `p`; a pet without entries has an empty one. */
  function GetDiseasesForPet(s: PetDiseaseStore, p: PetId): (r: seq<DiseaseId>)
    ensures p !in s.memory ==> r == []
  {
    if p in s.memory then s.memory[p] else []
  }

  /** Appends one disease to the history of `p`, creating it if needed. */
  function Insert(s: PetDiseaseStore, p: PetId, d: DiseaseId): (r: PetDiseaseStore)
    ensures GetDiseasesForPet(r, p) == GetDiseasesForPet(s, p) + [d]
    ensures |GetDiseasesForPet(r, p)| == |GetDiseasesForPet(s, p)| + 1
    ensures GetDiseasesForPet(r, p)[|GetDiseasesForPet(s, p)|] == d
    ensures GetDiseasesForPet(s, p) <= GetDiseasesForPet(r, p)
    ensures forall q :: q != p ==> GetDiseasesForPet(r, q) == GetDiseasesForPet(s, q)
    ensures r.memory.Keys == s.memory.Keys + {p}
  {
    PetDiseaseStore(s.memory[p := GetDiseasesForPet(s, p) + [d]])
  }
}
