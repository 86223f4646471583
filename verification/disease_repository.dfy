/** In-memory store of diseases, keyed by disease identifier. Diseases are
    inserted by name and only ever tested for existence. */
module DiseaseRepository {
  import opened Model

  datatype DiseaseStore = DiseaseStore(memory: map<DiseaseId, Disease>)

  function Empty(): DiseaseStore
  {
    DiseaseStore(map[])
  }

  /** Every stored disease carries the identifier it is stored under. */
  ghost predicate Valid(s: DiseaseStore)
  {
    forall id :: id in s.memory ==> s.memory[id].id == id
  }

  function Exist(s: DiseaseStore, id: DiseaseId): bool
  {
    id in s.memory
  }

  /** Registers a disease under `newId`, which stands for the random UUID the
      repository generates. Names are not checked for uniqueness. */
  function Insert(s: DiseaseStore, name: string, newId: DiseaseId): (r: (DiseaseStore, DiseaseId))
    requires !Exist(s, newId)
    ensures !Exist(s, r.1) && Exist(r.0, r.1)
    ensures forall id :: Exist(r.0, id) <==> Exist(s, id) || id == r.1
    ensures r.0.memory[r.1] == Disease(r.1, name)
    ensures forall id :: id in s.memory ==> id in r.0.memory && r.0.memory[id] == s.memory[id]
    ensures Valid(s) ==> Valid(r.0)
  {
    (DiseaseStore(s.memory[newId := Disease(newId, name)]), newId)
  }

  /** Two diseases with the same name may coexist under different identifiers. */
  lemma DuplicateNamesAccepted(s: DiseaseStore, name: string, first: DiseaseId, second: DiseaseId)
    requires !Exist(s, first) && !Exist(s, second) && first != second
    ensures var (s1, id1) := Insert(s, name, first);
            var (s2, id2) := Insert(s1, name, second);
            id1 != id2 && Exist(s2, id1) && Exist(s2, id2)
            && s2.memory[id1].name == s2.memory[id2].name == name
  {
  }
}
