/** The pet lifecycle the service enforces, written out as an explicit
    transition table, and the facts connecting the table with the service's
    three operations. */
module Lifecycle {
  import opened Model
  import opened Exceptions
  import Pets = PetRepository
  import Diseases = DiseaseRepository
  import opened VeterinarianService

  /** One call into the service. */
  datatype Request =
    | Diagnose(pet: Pet, disease: Disease)
    | Cure(pet: Pet, medicines: seq<Medicine>)
    | MarkHealthy(pet: Pet)

  /** The clinic after a call, and the error it threw if any. A failed call
      hands back the clinic it was given. */
  function Handle(c: Clinic, req: Request): (r: (Clinic, Option<VetError>))
  {
    match req
    case Diagnose(pet, disease) =>
      (match DiagnosePet(c, pet, disease)
       case Ok(d) => (d.clinic, None)
       case Err(e) => (c, Some(e)))
    case Cure(pet, medicines) =>
      (match CurePet(c, pet, medicines)
       case Ok(after) => (after, None)
       case Err(e) => (c, Some(e)))
    case MarkHealthy(pet) =>
      (match MarkPetAsHealthy(c, pet)
       case Ok(after) => (after, None)
       case Err(e) => (c, Some(e)))
  }

  /** The transition table: which statuses each request accepts. */
  predicate Permits(req: Request, from: PetStatus)
  {
    match req
    case Diagnose(_, _) => from == Unhealthy || from == CureInProgress
    case Cure(_, _) => from == Diagnosed
    case MarkHealthy(_) => true
  }

  /** The status each request moves a pet to. */
  function Target(req: Request): PetStatus
  {
    match req
    case Diagnose(_, _) => Diagnosed
    case Cure(_, _) => CureInProgress
    case MarkHealthy(_) => Healthy
  }

  /** When the caller's pet is the stored record and the referenced disease
      exists, a request succeeds exactly when the table permits it from the
      stored status, and then moves the stored status to the table's target;
      a refused request leaves every store as it was. */
  lemma HandleFollowsTable(c: Clinic, req: Request)
    requires Pets.Get(c.pets, req.pet.id) == Some(req.pet)
    requires req.Diagnose? ==> Diseases.Exist(c.diseases, req.disease.id)
    ensures Handle(c, req).1.None? <==> Permits(req, Pets.Get(c.pets, req.pet.id).value.status)
    ensures Handle(c, req).1.None? ==>
              Pets.Get(Handle(c, req).0.pets, req.pet.id).value.status == Target(req)
    ensures Handle(c, req).1.Some? ==> Handle(c, req).0 == c
  {
  }

  /** A pet that does not exist is refused by every request, and nothing changes. */
  lemma UnknownPetRefused(c: Clinic, req: Request)
    requires !Pets.Exist(c.pets, req.pet.id)
    ensures Handle(c, req) == (c, Some(PetNotFound(req.pet)))
  {
  }

  /** Every request preserves the stores' well-formedness. */
  lemma HandlePreservesValid(c: Clinic, req: Request)
    requires Valid(c)
    ensures Valid(Handle(c, req).0)
  {
  }

  /** The guards consult the caller's pet value only: whatever status the
      store holds for that pet, every request has the same outcome. */
  lemma OutcomeIgnoresStoredStatus(c: Clinic, req: Request, stored: PetStatus)
    ensures var c' := c.(pets := Pets.UpdateStatus(c.pets, req.pet.id, stored));
            Handle(c', req).1 == Handle(c, req).1
  {
  }

  /** In particular, a stale pet value still marked unhealthy is diagnosed even
      though the store already records the pet as healthy. */
  lemma StaleUnhealthyPetIsDiagnosed(c: Clinic, pet: Pet, disease: Disease)
    requires Pets.Get(c.pets, pet.id).Some? && Pets.Get(c.pets, pet.id).value.status == Healthy
    requires Diseases.Exist(c.diseases, disease.id)
    requires pet.status == Unhealthy
    ensures Handle(c, Diagnose(pet, disease)).1.None?
    ensures Pets.Get(Handle(c, Diagnose(pet, disease)).0.pets, pet.id).value.status == Diagnosed
  {
  }
}
