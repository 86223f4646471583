/** The four failures the treatment service can raise. Each carries the record
    the corresponding exception is built from; the message text is dropped. */
module Exceptions {
  import opened Model

  datatype VetError =
    | PetNotFound(pet: Pet)
    | DiseaseNotFound(disease: Disease)
    | PetShouldNotBeDiagnosed(pet: Pet)
    | PetShouldNotBeCured(pet: Pet)

  /** Either the value of a call that returned normally, or the error it threw. */
  datatype Result<+T> = Ok(value: T) | Err(error: VetError)
}
