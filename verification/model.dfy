/** Entities of the veterinary clinic: pets, diseases and medicines, their
    identifiers, and the request used to register a pet. */
module Model {

  /** A 128-bit UUID. Only equality between identifiers is ever used. */
  newtype Uuid = x: int | 0 <= x < 0x1_0000_0000_0000_0000_0000_0000_0000_0000

  /** A Kotlin `Int`: a signed 32-bit integer. Ages are copied, never computed. */
  newtype Int32 = x: int | -0x8000_0000 <= x < 0x8000_0000

  /** The three identifier wrappers are distinct types, so an id of one kind
      can never be compared with an id of another. */
  datatype PetId = PetId(value: Uuid)
  datatype DiseaseId = DiseaseId(value: Uuid)
  datatype MedicineId = MedicineId(value: Uuid)

  /** Lifecycle stage of a pet. */
  datatype PetStatus = Unhealthy | Diagnosed | CureInProgress | Healthy

  datatype Pet = Pet(id: PetId, status: PetStatus, name: string, breed: string, age: Int32)

  /** A pet as submitted for registration: everything but the identifier. */
  datatype PetRequest = PetRequest(status: PetStatus, name: string, breed: string, age: Int32)

  datatype Disease = Disease(id: DiseaseId, name: string)

  /** A medicine, tagged with the disease it is recommended for. */
  datatype Medicine = Medicine(id: MedicineId, name: string, recommendedForDisease: DiseaseId)

  datatype Option<+T> = None | Some(value: T)
}
