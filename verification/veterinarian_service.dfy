/** The treatment workflow: diagnosing a pet, starting its cure, and marking it
    healthy, over the five stores of the clinic. Each operation checks its
    guards in order and throws on the first that fails, before any store is
    touched; on success it returns the clinic with the updated stores. */
module VeterinarianService {
  import opened Model
  import opened Exceptions
  import Pets = PetRepository
  import Diseases = DiseaseRepository
  import Medicines = MedicineRepository
  import PetDiseases = PetDiseaseRepository
  import PetMedicines = PetMedicineRepository

  /** The five stores the service coordinates. */
  datatype Clinic = Clinic(
    pets: Pets.PetStore,
    diseases: Diseases.DiseaseStore,
    petDiseases: PetDiseases.PetDiseaseStore,
    medicines: Medicines.MedicineStore,
    petMedicines: PetMedicines.PetMedicineStore)

  function EmptyClinic(): Clinic
  {
    Clinic(Pets.Empty(), Diseases.Empty(), PetDiseases.Empty(), Medicines.Empty(), PetMedicines.Empty())
  }

  /** The stores' own well-formedness: records carry their keys, medicine
      identifiers are unique. */
  ghost predicate Valid(c: Clinic)
  {
    Pets.Valid(c.pets) && Diseases.Valid(c.diseases) && Medicines.Valid(c.medicines)
  }

  /** `after` differs from `before` only in the status of pet `id`, which is `status`. */
  ghost predicate StatusSetTo(before: Pets.PetStore, after: Pets.PetStore, id: PetId, status: PetStatus)
    requires Pets.Exist(before, id)
  {
    && Pets.Get(after, id).Some?
    && Pets.Get(after, id).value.status == status
    && Pets.SameExceptStatus(Pets.Get(after, id).value, Pets.Get(before, id).value)
    && after.memory.Keys == before.memory.Keys
    && (forall q :: q != id ==> Pets.Get(after, q) == Pets.Get(before, q))
  }

  /** The status guards read the caller's `Pet` value, not the stored record. */
  predicate ShouldBeDiagnosed(pet: Pet)
  {
    pet.status == Unhealthy || pet.status == CureInProgress
  }

  predicate ShouldBeCured(pet: Pet)
  {
    pet.status == Diagnosed
  }

  /** The identifiers of the given medicines, in order. */
  function MedicineIds(medicines: seq<Medicine>): (r: seq<MedicineId>)
    ensures |r| == |medicines|
    ensures forall i :: 0 <= i < |medicines| ==> r[i] == medicines[i].id
  {
    if |medicines| == 0 then [] else [medicines[0].id] + MedicineIds(medicines[1..])
  }

  /** What a successful diagnosis returns: the updated clinic and the
      medicines recommended for the disease. */
  datatype Diagnosis = Diagnosis(clinic: Clinic, recommended: seq<Medicine>)

  function DiagnosePet(c: Clinic, pet: Pet, disease: Disease): (r: Result<Diagnosis>)
    ensures !Pets.Exist(c.pets, pet.id) ==> r == Err(PetNotFound(pet))
    ensures Pets.Exist(c.pets, pet.id) && !Diseases.Exist(c.diseases, disease.id) ==>
              r == Err(DiseaseNotFound(disease))
    ensures Pets.Exist(c.pets, pet.id) && Diseases.Exist(c.diseases, disease.id)
            && (pet.status == Diagnosed || pet.status == Healthy) ==>
              r == Err(PetShouldNotBeDiagnosed(pet))
    ensures r.Ok? <==>
              Pets.Exist(c.pets, pet.id) && Diseases.Exist(c.diseases, disease.id)
              && (pet.status == Unhealthy || pet.status == CureInProgress)
    ensures r.Ok? ==>
              var after := r.value.clinic;
              && PetDiseases.GetDiseasesForPet(after.petDiseases, pet.id)
                 == PetDiseases.GetDiseasesForPet(c.petDiseases, pet.id) + [disease.id]
              && (forall q :: q != pet.id ==>
                    PetDiseases.GetDiseasesForPet(after.petDiseases, q)
                    == PetDiseases.GetDiseasesForPet(c.petDiseases, q))
              && StatusSetTo(c.pets, after.pets, pet.id, Diagnosed)
              && after.diseases == c.diseases
              && after.medicines == c.medicines
              && after.petMedicines == c.petMedicines
    ensures r.Ok? ==>
              forall m :: m in r.value.recommended <==>
                            m in c.medicines.values && m.recommendedForDisease == disease.id
    ensures r.Ok? && Valid(c) ==> Valid(r.value.clinic)
  {
    if !Pets.Exist(c.pets, pet.id) then
      Err(PetNotFound(pet))
    else if !Diseases.Exist(c.diseases, disease.id) then
      Err(DiseaseNotFound(disease))
    else if ShouldBeDiagnosed(pet) then
      var diagnosed := c.(petDiseases := PetDiseases.Insert(c.petDiseases, pet.id, disease.id),
                         pets := Pets.UpdateStatus(c.pets, pet.id, Diagnosed));
      Ok(Diagnosis(diagnosed, Medicines.GetMedicinesForDisease(diagnosed.medicines, disease.id)))
    else
      Err(PetShouldNotBeDiagnosed(pet))
  }

  /** Neither the medicines' existence nor their diseases are checked. */
  function CurePet(c: Clinic, pet: Pet, medicines: seq<Medicine>): (r: Result<Clinic>)
    ensures !Pets.Exist(c.pets, pet.id) ==> r == Err(PetNotFound(pet))
    ensures Pets.Exist(c.pets, pet.id) && pet.status != Diagnosed ==> r == Err(PetShouldNotBeCured(pet))
    ensures r.Ok? <==> Pets.Exist(c.pets, pet.id) && pet.status == Diagnosed
    ensures r.Ok? ==>
              var after := r.value;
              && |PetMedicines.GetMedicinesForPet(after.petMedicines, pet.id)|
                 == |PetMedicines.GetMedicinesForPet(c.petMedicines, pet.id)| + |medicines|
              && PetMedicines.GetMedicinesForPet(c.petMedicines, pet.id)
                 <= PetMedicines.GetMedicinesForPet(after.petMedicines, pet.id)
              && (forall i :: 0 <= i < |medicines| ==>
                    PetMedicines.GetMedicinesForPet(after.petMedicines, pet.id)
                      [|PetMedicines.GetMedicinesForPet(c.petMedicines, pet.id)| + i]
                    == medicines[i].id)
              && (forall q :: q != pet.id ==>
                    PetMedicines.GetMedicinesForPet(after.petMedicines, q)
                    == PetMedicines.GetMedicinesForPet(c.petMedicines, q))
              && StatusSetTo(c.pets, after.pets, pet.id, CureInProgress)
              && after.diseases == c.diseases
              && after.medicines == c.medicines
              && after.petDiseases == c.petDiseases
    ensures r.Ok? && Valid(c) ==> Valid(r.value)
  {
    if !Pets.Exist(c.pets, pet.id) then
      Err(PetNotFound(pet))
    else if ShouldBeCured(pet) then
      Ok(c.(petMedicines := PetMedicines.Insert(c.petMedicines, pet.id, MedicineIds(medicines)),
            pets := Pets.UpdateStatus(c.pets, pet.id, CureInProgress)))
    else
      Err(PetShouldNotBeCured(pet))
  }

  function MarkPetAsHealthy(c: Clinic, pet: Pet): (r: Result<Clinic>)
    ensures r.Ok? <==> Pets.Exist(c.pets, pet.id)
    ensures r.Err? ==> r.error == PetNotFound(pet)
    ensures r.Ok? ==>
              && StatusSetTo(c.pets, r.value.pets, pet.id, Healthy)
              && r.value.diseases == c.diseases
              && r.value.medicines == c.medicines
              && r.value.petDiseases == c.petDiseases
              && r.value.petMedicines == c.petMedicines
    ensures r.Ok? && Valid(c) ==> Valid(r.value)
  {
    if !Pets.Exist(c.pets, pet.id) then
      Err(PetNotFound(pet))
    else
      Ok(c.(pets := Pets.UpdateStatus(c.pets, pet.id, Healthy)))
  }
}
