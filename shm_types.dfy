/** Values shared by the model of the land-certificate (SHM) contract. */
module ShmTypes {

  /** The text of a ledger value: the JSON the contract writes, as characters. */
  type Text = string

  /** A land certificate as the contract builds it: every field is the caller's
      argument, unvalidated; `docType` is the discriminator the contract sets to "shm". */
  datatype Shm = Shm(
    shmId: string,
    pemilik: string,
    alamat: string,
    luas: string,
    tanggalTerbit: string,
    docType: string)

  datatype Option<+T> = None | Some(value: T) {
    predicate IsFailure() { None? }

    function PropagateFailure<U>(): Option<U>
      requires None?
    {
      None
    }

    function Extract(): T
      requires Some?
    {
      value
    }
  }

  /** The two ways a contract call fails: the key is absent or holds an empty
      value, or the stored text is not JSON the parser accepts. */
  datatype Error = NotFound(id: string) | Malformed

  datatype Result<+T> = Ok(value: T) | Err(error: Error)
}
