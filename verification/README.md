# Veterinarian treatment workflow — Dafny model

This project models the treatment workflow of a small veterinary clinic
service. The service (`VeterinarianService`) moves a pet through its
lifecycle: unhealthy, then diagnosed, then cure in progress, then healthy. It
coordinates five in-memory stores:

- the pet store, which maps a pet id to a `Pet`;
- the disease store, which maps a disease id to a `Disease`;
- the medicine store, which maps a medicine id to a `Medicine` tagged with the
  disease it is recommended for;
- the diagnosis history, which maps a pet id to a list of disease ids;
- the treatment history, which maps a pet id to a list of medicine ids.

Every store is an immutable datatype, and every repository operation is a
pure function from the old store to the new one. The service's three
operations are functions from a `Clinic` (the five stores) to a `Result`.
A `Result` is either the new clinic, with the recommended medicines in the
case of a diagnosis, or one of the four error kinds. A failed call returns
no clinic, so the caller's stores are unchanged by construction.
`Lifecycle.Handle` makes this explicit: on an error it returns the clinic it
was given.

Modules follow the source files:

| module | models |
|---|---|
| `Model` | `model/Pet.kt`, `model/PetRequest.kt`, `model/Disease.kt`, `model/Medicine.kt` |
| `Exceptions` | `VeterinarianExceptions.kt` (the four exception classes as constructors) |
| `PetRepository`, `DiseaseRepository`, `MedicineRepository`, `PetDiseaseRepository`, `PetMedicineRepository` | the five repositories |
| `VeterinarianService` | `service/VeterinarianService.kt` |
| `Lifecycle` | the transition table that the service's guards implement implicitly, proved against the service |
| `Scenarios` | concrete runs built from the data the service tests use; `FullTreatment` chains on one pet the three steps the tests check separately |

Modelling choices:

- The three id wrappers are distinct datatypes over a 128-bit `Uuid` newtype.
  Kotlin's `Int` age is an `Int32` newtype. Ages are only copied, so no
  wrap-around arises.
- A random UUID is modelled by a parameter `newId` of the inserting function.
  Its precondition says the id is not already a key of the store. This is the
  only property of a random UUID that the code relies on.
- The medicine store is an insertion-ordered map whose keys are never
  overwritten. It is therefore modelled by its sequence of values in insertion
  order, with distinct ids (`MedicineRepository.Valid`). The query filters
  that sequence, so its result is in insertion order, because `mutableMapOf()`
  (`MedicineRepository.kt:9`) keeps insertion order. The query's own contract
  states membership only. `MedicineRepository.AddThenQuery` relies on the
  insertion order: a newly added medicine comes last in its disease's query.
- The status guards read the `status` of the `Pet` value the caller passes in,
  not the stored record (`VeterinarianService.kt:69-73`). Existence is checked
  by id only. The model does the same: `Lifecycle.OutcomeIgnoresStoredStatus`
  and `Lifecycle.StaleUnhealthyPetIsDiagnosed` state the consequence.

Facts about the code that the model keeps:

- A refused diagnosis and a refused cure raise two different exceptions,
  `PetShouldNotBeDiagnosedException` and `PetShouldNotBeCuredException`. The
  model has one error constructor for each.
- `curePet` accepts an empty medicine list. The pet still moves to cure in
  progress, and an empty treatment-history entry is created
  (`PetMedicineRepository.InsertEmptyBatch`).
- No code checks that a medicine's disease exists or that an age is
  non-negative. The model does not check them either.

## Model

| member | source | states |
|---|---|---|
| `PetRepository.Get` | src/main/kotlin/com/pl/dac/veterinarian/repository/PetRepository.kt:33-34 | `get` is absent exactly when `exist` is false; in a well-formed store, a found pet carries the id it was looked up by |
| `PetRepository.InsertPet` | src/main/kotlin/com/pl/dac/veterinarian/repository/PetRepository.kt:12-18 | the returned id was not present before and exists afterwards; `get` of it yields a pet with that id and the request's status, name, breed and age; the key set grows by exactly that id; every other pet is unchanged; well-formedness is kept |
| `PetRepository.UpdateStatus` | src/main/kotlin/com/pl/dac/veterinarian/repository/PetRepository.kt:23-28 | the key set never changes; on a present id only the status changes, and id, name, breed and age are kept; on an absent id the store is unchanged (no entry is created); other pets are unchanged; well-formedness is kept |
| `DiseaseRepository.Insert` | src/main/kotlin/com/pl/dac/veterinarian/repository/DiseaseRepository.kt:13-18 | the returned id did not exist before and exists afterwards; exactly that id is added and every earlier disease is kept; the stored disease carries the returned id and the given name |
| `DiseaseRepository.DuplicateNamesAccepted` | src/main/kotlin/com/pl/dac/veterinarian/repository/DiseaseRepository.kt:13-15 | inserting the same name twice yields two distinct ids, and both exist with that name: names are not checked for uniqueness |
| `MedicineRepository.Filter` | src/main/kotlin/com/pl/dac/veterinarian/repository/MedicineRepository.kt:12 | a medicine is in the filtered list exactly when it is in the input and is recommended for the disease; the filtered list is no longer than the input |
| `MedicineRepository.FilterAppend` | src/main/kotlin/com/pl/dac/veterinarian/repository/MedicineRepository.kt:12 | filtering a concatenation is the concatenation of the filtered parts |
| `MedicineRepository.GetMedicinesForDisease` | src/main/kotlin/com/pl/dac/veterinarian/repository/MedicineRepository.kt:11-12 | returns exactly the stored medicines whose recommended disease is the argument: every element matches, and no matching medicine is omitted |
| `MedicineRepository.AddMedicineForDisease` | src/main/kotlin/com/pl/dac/veterinarian/repository/MedicineRepository.kt:14-20 | the returned id is fresh and afterwards in use; exactly that id is added; a medicine with that id, the given name and the given disease is stored; earlier medicines are kept in order; ids stay distinct |
| `MedicineRepository.AddThenQuery` | src/main/kotlin/com/pl/dac/veterinarian/repository/MedicineRepository.kt:11-20 | after adding a medicine for disease d, the query for d is its old result followed by exactly that medicine (the new medicine comes last, by the map's insertion order); the query for any other disease is unchanged and does not contain it |
| `PetDiseaseRepository.GetDiseasesForPet` | src/main/kotlin/com/pl/dac/veterinarian/repository/PetDiseaseRepository.kt:15-16 | a pet with no entry has an empty diagnosis history |
| `PetDiseaseRepository.Insert` | src/main/kotlin/com/pl/dac/veterinarian/repository/PetDiseaseRepository.kt:9-13 | the pet's history becomes the old history followed by the disease: its length grows by one, the old history is a prefix, and the last element is the disease; other pets' histories are unchanged |
| `PetMedicineRepository.GetMedicinesForPet` | src/main/kotlin/com/pl/dac/veterinarian/repository/PetMedicineRepository.kt:15-16 | a pet with no entry has an empty treatment history |
| `PetMedicineRepository.Insert` | src/main/kotlin/com/pl/dac/veterinarian/repository/PetMedicineRepository.kt:9-13 | the pet's history becomes the old history followed by the batch, in order: it grows by exactly the batch's length and keeps the old history as a prefix; other pets' histories are unchanged; an entry for the pet exists afterwards |
| `PetMedicineRepository.InsertEmptyBatch` | src/main/kotlin/com/pl/dac/veterinarian/repository/PetMedicineRepository.kt:9-13 | an empty batch leaves every pet's history unchanged as a sequence, yet creates an entry for the pet |
| `VeterinarianService.MedicineIds` | src/main/kotlin/com/pl/dac/veterinarian/service/VeterinarianService.kt:84 | the i-th id is the id of the i-th medicine, and there are as many ids as medicines |
| `VeterinarianService.DiagnosePet` | src/main/kotlin/com/pl/dac/veterinarian/service/VeterinarianService.kt:25-41 | an absent pet fails with PetNotFound, even if the disease is absent too; an existing pet with an absent disease fails with DiseaseNotFound whatever its status; otherwise the argument's status DIAGNOSED or HEALTHY fails with PetShouldNotBeDiagnosed; success happens exactly when both exist and the argument's status is UNHEALTHY or CURE_IN_PROGRESS; success appends exactly the disease to the pet's history, sets the stored status to DIAGNOSED, keeps the pet's other fields, other pets, the disease store, the medicine store and the treatment history, and returns exactly the stored medicines recommended for the disease |
| `VeterinarianService.CurePet` | src/main/kotlin/com/pl/dac/veterinarian/service/VeterinarianService.kt:43-53 | an absent pet fails with PetNotFound; an existing pet whose argument status is not DIAGNOSED fails with PetShouldNotBeCured; success happens exactly when the pet exists and its argument status is DIAGNOSED; success appends the given medicines' ids, in order, to the pet's treatment history and sets the stored status to CURE_IN_PROGRESS, without checking the medicines and without touching the disease, medicine or diagnosis stores |
| `VeterinarianService.MarkPetAsHealthy` | src/main/kotlin/com/pl/dac/veterinarian/service/VeterinarianService.kt:55-61 | fails with PetNotFound exactly when the pet is absent; otherwise sets the stored status to HEALTHY from any prior status, touching nothing else |
| `Lifecycle.HandleFollowsTable` | src/main/kotlin/com/pl/dac/veterinarian/service/VeterinarianService.kt:25-91 | when the caller's pet is the stored record and the disease exists, a request succeeds exactly when the explicit transition table permits it from the stored status, and then the stored status becomes the table's target; a refused request leaves all five stores unchanged |
| `Lifecycle.UnknownPetRefused` | src/main/kotlin/com/pl/dac/veterinarian/service/VeterinarianService.kt:63-64 | every request for an absent pet fails with PetNotFound and changes nothing |
| `Lifecycle.HandlePreservesValid` | src/main/kotlin/com/pl/dac/veterinarian/service/VeterinarianService.kt:75-91 | every request, successful or not, keeps the stores well formed |
| `Lifecycle.OutcomeIgnoresStoredStatus` | src/main/kotlin/com/pl/dac/veterinarian/service/VeterinarianService.kt:63-73 | changing the stored status of the pet changes neither whether a request succeeds nor the error it raises: the guards read the argument |
| `Lifecycle.StaleUnhealthyPetIsDiagnosed` | src/main/kotlin/com/pl/dac/veterinarian/service/VeterinarianService.kt:69-70 | a pet value still marked UNHEALTHY is diagnosed even though the store records the pet as HEALTHY |
| `Scenarios.Registered` | src/test/kotlin/com/pl/dac/veterinarian/service/VeterinarianServiceTest.kt:97-109 | registering a pet request and a disease name in an empty clinic stores a pet with that id and the request's fields and a disease with that id and name, with no medicines and empty histories |
| `Scenarios.Setup` | src/test/kotlin/com/pl/dac/veterinarian/service/VeterinarianServiceTest.kt:37-51 | registering a pet, a disease and a medicine in an empty clinic stores that pet, that disease and exactly that medicine, with empty histories |
| `Scenarios.FullTreatment` | src/main/kotlin/com/pl/dac/veterinarian/service/VeterinarianService.kt:25-61 | chains on one pet, re-read from the store before each step, the three steps the tests check separately on fresh pets (VeterinarianServiceTest.kt:53-63, 171-178, 240-244): diagnosing an unhealthy pet recommends exactly the registered medicine, records the disease and sets DIAGNOSED; curing with that medicine records it and sets CURE_IN_PROGRESS; marking healthy sets HEALTHY and keeps the pet's other fields |
| `Scenarios.HealthyPetNotDiagnosed` | src/test/kotlin/com/pl/dac/veterinarian/service/VeterinarianServiceTest.kt:96-114 | with the test's pet and disease, diagnosing a healthy pet fails with PetShouldNotBeDiagnosed; the clinic after the refused call equals the clinic before it, and there the pet's stored status is HEALTHY |

## Left out

- UUID generation: the random id is a parameter constrained to be absent from the store, not a random choice.
- Exception messages: only the four error kinds are kept, each with the pet or disease it is built from. The message text is dropped.
- Order of `getMedicinesForDisease` results: the result follows the map's insertion order. Only `MedicineRepository.AddThenQuery` states anything about it (a new medicine comes last); no other ordering property is stated.
- Aliasing of the mutable lists: the two association repositories return their internal list. A caller holding it would see later appends. Results here are immutable values.
- Purity of the queries (`exist`, `get`, `getMedicinesForDisease`, `getDiseasesForPet`, `getMedicinesForPet`): these are functions over an immutable store, so they cannot modify it. No separate statement is needed.
- Concurrency: the stores are unsynchronised shared state, and the model is sequential.
- Test harness details: the shared module-level repositories and the random status choice in the tests. Here they are quantification over all clinics and all statuses in the contracts.
- Checks the code does not make: non-negative age, existence of the medicines passed to `curePet`, and existence of a medicine's disease when it is added.
