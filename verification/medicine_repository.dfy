/** In-memory store of medicines. The store is an insertion-ordered map from
    medicine identifier to medicine whose keys are never overwritten (every
    insertion uses a fresh identifier), so it is modelled by its sequence of
    values in insertion order. */
module MedicineRepository {
  import opened Model

  datatype MedicineStore = MedicineStore(values: seq<Medicine>)

  function Empty(): MedicineStore
  {
    MedicineStore([])
  }

  /** The identifiers in use: the key set of the underlying map. */
  function Ids(s: MedicineStore): set<MedicineId>
  {
    set i | 0 <= i < |s.values| :: s.values[i].id
  }

  /** No identifier is used twice, as in a map. */
  ghost predicate Valid(s: MedicineStore)
  {
    forall i, j :: 0 <= i < j < |s.values| ==> s.values[i].id != s.values[j].id
  }

  /** The medicines of `ms` recommended for disease `d`, in their order in `ms`. */
  function Filter(ms: seq<Medicine>, d: DiseaseId): (r: seq<Medicine>)
    ensures forall m :: m in r <==> m in ms && m.recommendedForDisease == d
    ensures |r| <= |ms|
  {
    if |ms| == 0 then []
    else (if ms[0].recommendedForDisease == d then [ms[0]] else []) + Filter(ms[1..], d)
  }

  /** Filtering distributes over concatenation. */
  lemma {:induction false} FilterAppend(a: seq<Medicine>, b: seq<Medicine>, d: DiseaseId)
    ensures Filter(a + b, d) == Filter(a, d) + Filter(b, d)
  {
    if |a| == 0 {
      assert a + b == b;
    } else {
      assert (a + b)[1..] == a[1..] + b;
      FilterAppend(a[1..], b, d);
    }
  }

  /** Every stored medicine recommended for `d`, and only those. */
  function GetMedicinesForDisease(s: MedicineStore, d: DiseaseId): (r: seq<Medicine>)
    ensures forall m :: m in r <==> m in s.values && m.recommendedForDisease == d
  {
    Filter(s.values, d)
  }

  /** Stores a medicine for disease `d` under `newId`, which stands for the
      random UUID the repository generates. The disease is not checked. */
  function AddMedicineForDisease(s: MedicineStore, d: DiseaseId, name: string, newId: MedicineId)
    : (r: (MedicineStore, MedicineId))
    requires newId !in Ids(s)
    ensures r.1 !in Ids(s) && r.1 in Ids(r.0)
    ensures Ids(r.0) == Ids(s) + {r.1}
    ensures Medicine(r.1, name, d) in r.0.values
    ensures s.values <= r.0.values
    ensures Valid(s) ==> Valid(r.0)
  {
    var r := MedicineStore(s.values + [Medicine(newId, name, d)]);
    assert r.values[|s.values|].id == newId;
    assert forall i :: 0 <= i < |s.values| ==> r.values[i] == s.values[i];
    (r, newId)
  }

  /** After adding a medicine for `d`, the query for `d` gains exactly that
      medicine, last, since the map keeps insertion order; the query for every
      other disease is unchanged. */
  lemma AddThenQuery(s: MedicineStore, d: DiseaseId, name: string, newId: MedicineId, other: DiseaseId)
    requires newId !in Ids(s)
    ensures var (s', id) := AddMedicineForDisease(s, d, name, newId);
            GetMedicinesForDisease(s', d) == GetMedicinesForDisease(s, d) + [Medicine(id, name, d)]
            && (other != d ==> GetMedicinesForDisease(s', other) == GetMedicinesForDisease(s, other))
            && (other != d ==> Medicine(id, name, d) !in GetMedicinesForDisease(s', other))
  {
    var m := Medicine(newId, name, d);
    FilterAppend(s.values, [m], d);
    FilterAppend(s.values, [m], other);
  }
}
