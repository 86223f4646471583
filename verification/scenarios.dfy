/** Concrete runs of the workflow built from the data the service's tests use.
    The generated identifiers are parameters: any identifiers work. */
module Scenarios {
  import opened Model
  import opened Exceptions
  import Pets = PetRepository
  import Diseases = DiseaseRepository
  import Medicines = MedicineRepository
  import PetDiseases = PetDiseaseRepository
  import PetMedicines = PetMedicineRepository
  import opened VeterinarianService
  import Lifecycle

  /** Registers one pet and one disease in an empty clinic. */
  function Registered(request: PetRequest, petId: PetId, diseaseName: string, diseaseId: DiseaseId)
    : (c: Clinic)
    ensures Pets.Get(c.pets, petId)
            == Some(Pet(petId, request.status, request.name, request.breed, request.age))
    ensures Diseases.Exist(c.diseases, diseaseId)
    ensures c.diseases.memory[diseaseId] == Disease(diseaseId, diseaseName)
    ensures c.medicines == Medicines.Empty()
    ensures c.petDiseases == PetDiseases.Empty() && c.petMedicines == PetMedicines.Empty()
  {
    var empty := EmptyClinic();
    var (pets, _) := Pets.InsertPet(empty.pets, request, petId);
    var (diseases, _) := Diseases.Insert(empty.diseases, diseaseName, diseaseId);
    empty.(pets := pets, diseases := diseases)
  }

  /** Registers the pet Marcel, the disease Toxoplasmosis and the medicine
      Pyrimethamine for it in an empty clinic. */
  function Setup(status: PetStatus, petId: PetId, diseaseId: DiseaseId, medicineId: MedicineId): (c: Clinic)
    ensures Pets.Get(c.pets, petId) == Some(Pet(petId, status, "Marcel", "Birman Cat", 4))
    ensures Diseases.Exist(c.diseases, diseaseId)
    ensures c.diseases.memory[diseaseId] == Disease(diseaseId, "Toxoplasmosis")
    ensures c.medicines.values == [Medicine(medicineId, "Pyrimethamine", diseaseId)]
    ensures c.petDiseases == PetDiseases.Empty() && c.petMedicines == PetMedicines.Empty()
  {
    var c := Registered(PetRequest(status, "Marcel", "Birman Cat", 4), petId, "Toxoplasmosis", diseaseId);
    var (medicines, _) := Medicines.AddMedicineForDisease(c.medicines, diseaseId, "Pyrimethamine", medicineId);
    c.(medicines := medicines)
  }

  /** The three steps the tests check one at a time (diagnosis of an unhealthy
      pet, cure of a diagnosed pet, healing of any pet), chained on one pet
      that is re-read from the store before each step: every step succeeds
      with the expected status, the recommendation is exactly the registered
      medicine, and each history holds exactly the one entry. */
  lemma FullTreatment(petId: PetId, diseaseId: DiseaseId, medicineId: MedicineId)
    ensures
      var c0 := Setup(Unhealthy, petId, diseaseId, medicineId);
      var pyrimethamine := Medicine(medicineId, "Pyrimethamine", diseaseId);
      var diagnosis := DiagnosePet(c0, Pets.Get(c0.pets, petId).value, Disease(diseaseId, "Toxoplasmosis"));
      && diagnosis.Ok?
      && diagnosis.value.recommended == [pyrimethamine]
      && var c1 := diagnosis.value.clinic;
      && Pets.Get(c1.pets, petId).value.status == Diagnosed
      && PetDiseases.GetDiseasesForPet(c1.petDiseases, petId) == [diseaseId]
      && var cure := CurePet(c1, Pets.Get(c1.pets, petId).value, [pyrimethamine]);
      && cure.Ok?
      && var c2 := cure.value;
      && Pets.Get(c2.pets, petId).value.status == CureInProgress
      && PetMedicines.GetMedicinesForPet(c2.petMedicines, petId) == [medicineId]
      && var healed := MarkPetAsHealthy(c2, Pets.Get(c2.pets, petId).value);
      && healed.Ok?
      && Pets.Get(healed.value.pets, petId) == Some(Pet(petId, Healthy, "Marcel", "Birman Cat", 4))
  {
  }

  /** A healthy pet cannot be diagnosed: the call fails, the clinic after the
      refused call is the clinic before it, and there the pet is still healthy. */
  lemma HealthyPetNotDiagnosed(petId: PetId, diseaseId: DiseaseId)
    ensures
      var c0 := Registered(PetRequest(Healthy, "Boniface", "Havana Cat", 7), petId, "Cat Tapeworm", diseaseId);
      var pet := Pets.Get(c0.pets, petId).value;
      var after := Lifecycle.Handle(c0, Lifecycle.Diagnose(pet, Disease(diseaseId, "Cat Tapeworm")));
      && after.1 == Some(PetShouldNotBeDiagnosed(pet))
      && after.0 == c0
      && Pets.Get(after.0.pets, petId).value.status == Healthy
  {
  }
}
