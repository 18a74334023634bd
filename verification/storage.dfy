/**
 * The transactions file, as one of the four `Disk` shapes. The JSON text
 * itself and the file-system calls are not modelled.
 */
module Storage {
  import opened Wrappers
  import opened Transactions

  /** What the repository finds at its file path. */
  datatype Disk =
    | Missing                              // no file exists
    | NullDocument                         // the file holds the JSON literal `null`
    | Document(records: seq<Transaction>)  // the file holds a list of transactions
    | Malformed                            // the file holds text the deserializer rejects

  /** The deserializer throws on malformed text, and nothing catches it. */
  datatype LoadError = MalformedJson

  /** Writing the whole list over the file: what is saved loads back unchanged, in the same order and count. */
  function Save(ts: seq<Transaction>): (d: Disk)
    ensures Load(d) == Success(ts)
  {
    Document(ts)
  }

  /**
   * Reading the list back. Loading fails only on malformed text; an absent
   * file or a `null` document is an empty list.
   */
  function Load(d: Disk): (r: Result<seq<Transaction>, LoadError>)
    ensures r.Failure? <==> d == Malformed
    ensures d == Missing || d == NullDocument ==> r == Success([])
  {
    match d
    case Missing => Success([])
    case NullDocument => Success([])
    case Document(ts) => Success(ts)
    case Malformed => Failure(MalformedJson)
  }
}
