/**
  The two primary-backup recovery responses, as plain immutable records. Their
  classes hold a status and the fields below, with accessors and no other logic.
 */
module BackupProtocol {
  import opened Scalars

  /** The response status; its enumeration is defined outside this model, so it stays opaque. */
  datatype Status = Status(code: int)

  /** A metadata response: a status and the names of the primitives the responder knows. */
  datatype MetadataResponse = MetadataResponse(status: Status, primitiveNames: set<string>)

  /** A restore response: a status, the log index and timestamp of the snapshot, and its bytes. */
  datatype RestoreResponse = RestoreResponse(status: Status, index: int64, timestamp: int64, data: seq<byte>)
}
