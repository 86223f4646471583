/** Append-only treatment history: for each pet, the medicines it was given,
    in order. */
module PetMedicineRepository {
  import opened Model

  datatype PetMedicineStore = PetMedicineStore(memory: map<PetId, seq<MedicineId>>)

  function Empty(): PetMedicineStore
  {
    PetMedicineStore(map[])
  }

  /** The treatment history of `p`; a pet without entries has an empty one. */
  function GetMedicinesForPet(s: PetMedicineStore, p: PetId): (r: seq<MedicineId>)
    ensures p !in s.memory ==> r == []
  {
    if p in s.memory then s.memory[p] else []
  }

  /** Appends a batch of medicines to the history of `p`, in order, creating
      the entry if needed (even for an empty batch). */
  function Insert(s: PetMedicineStore, p: PetId, ids: seq<MedicineId>): (r: PetMedicineStore)
    ensures GetMedicinesForPet(r, p) == GetMedicinesForPet(s, p) + ids
    ensures |GetMedicinesForPet(r, p)| == |GetMedicinesForPet(s, p)| + |ids|
    ensures GetMedicinesForPet(s, p) <= GetMedicinesForPet(r, p)
    ensures forall q :: q != p ==> GetMedicinesForPet(r, q) == GetMedicinesForPet(s, q)
    ensures r.memory.Keys == s.memory.Keys + {p}
  {
    PetMedicineStore(s.memory[p := GetMedicinesForPet(s, p) + ids])
  }

  /** An empty batch leaves every history unchanged, though it may create an
      empty entry for `p`. */
  lemma InsertEmptyBatch(s: PetMedicineStore, p: PetId)
    ensures forall q :: GetMedicinesForPet(Insert(s, p, []), q) == GetMedicinesForPet(s, q)
    ensures p in Insert(s, p, []).memory
  {
    assert GetMedicinesForPet(s, p) + [] == GetMedicinesForPet(s, p);
  }
}
