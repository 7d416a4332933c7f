/**
 * The pieces of the driver's metadata and type system that the query builder consumes.
 * Their code lies outside this model: a partition-key column is a name together with
 * its type's "parse a raw value into encoded bytes" capability, which may fail.
 */
module Schema {
  import opened Wrappers

  /** A Java byte, read as unsigned. */
  newtype byte = x: int | 0 <= x < 256

  /** A byte buffer's readable contents. */
  type Bytes = seq<byte>

  /** The errors this component lets through to its callers. */
  datatype Error =
    | InvalidType(message: string)   // the column's type rejects the bound value
    | UnsupportedOperation           // the rendering hook of a forwarding statement

  /**
   * One partition-key column: its name and its type's parser, applied to the raw
   * string form of a bound value.
   */
  datatype Column = Column(name: string, parse: string -> Result<Bytes, Error>)

  /** Only the partition key of a table matters here. */
  datatype TableMetadata = TableMetadata(partitionKey: seq<Column>)
}
