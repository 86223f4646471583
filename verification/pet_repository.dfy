/** In-memory store of pets, keyed by pet identifier. Pets are inserted from a
    request, looked up, and have their status replaced; they are never removed. */
module PetRepository {
  import opened Model

  datatype PetStore = PetStore(memory: map<PetId, Pet>)

  function Empty(): PetStore
  {
    PetStore(map[])
  }

  /** Every stored pet carries the identifier it is stored under. */
  ghost predicate Valid(s: PetStore)
  {
    forall id :: id in s.memory ==> s.memory[id].id == id
  }

  /** The two pets agree on everything except, possibly, the status. */
  predicate SameExceptStatus(a: Pet, b: Pet)
  {
    a.id == b.id && a.name == b.name && a.breed == b.breed && a.age == b.age
  }

  function Exist(s: PetStore, id: PetId): bool
  {
    id in s.memory
  }

  /** Looks a pet up; absence is an ordinary answer, not an error. */
  function Get(s: PetStore, id: PetId): (r: Option<Pet>)
    ensures r.None? <==> !Exist(s, id)
    ensures Valid(s) && r.Some? ==> r.value.id == id
  {
    if Exist(s, id) then Some(s.memory[id]) else None
  }

  /** Registers a pet under `newId`, which stands for the random UUID the
      repository generates: it is not the key of any stored pet. */
  function InsertPet(s: PetStore, request: PetRequest, newId: PetId): (r: (PetStore, PetId))
    requires !Exist(s, newId)
    ensures !Exist(s, r.1) && Exist(r.0, r.1)
    ensures Get(r.0, r.1) == Some(Pet(r.1, request.status, request.name, request.breed, request.age))
    ensures r.0.memory.Keys == s.memory.Keys + {r.1}
    ensures forall q :: q != r.1 ==> Get(r.0, q) == Get(s, q)
    ensures Valid(s) ==> Valid(r.0)
  {
    var pet := Pet(newId, request.status, request.name, request.breed, request.age);
    (PetStore(s.memory[newId := pet]), newId)
  }

  /** Replaces the status of a stored pet, keeping its other fields; an absent
      identifier is silently ignored. */
  function UpdateStatus(s: PetStore, id: PetId, status: PetStatus): (r: PetStore)
    ensures r.memory.Keys == s.memory.Keys
    ensures Exist(s, id) ==>
              Get(r, id).Some? && Get(r, id).value.status == status
              && SameExceptStatus(Get(r, id).value, Get(s, id).value)
    ensures !Exist(s, id) ==> r == s
    ensures forall q :: q != id ==> Get(r, q) == Get(s, q)
    ensures Valid(s) ==> Valid(r)
  {
    if Exist(s, id) then
      PetStore(s.memory[id := s.memory[id].(status := status)])
    else
      s
  }
}
