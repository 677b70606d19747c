/** Types shared by every component: error codes, optional values, machine integers. */
module Base {

  datatype Option<+T> = None | Some(value: T)

  /** The error codes the modelled functions return. */
  datatype ErrorCode =
    | Success
    | Failure
    | ErrorResourceNotAvailable
    | ErrorTimeout
    | ErrorOs

  type uint32 = n: int | 0 <= n < 0x1_0000_0000
  type uint64 = n: int | 0 <= n < 0x1_0000_0000_0000_0000

  lemma Associate<T>(a: seq<T>, b: seq<T>, c: seq<T>)
    ensures a + (b + c) == a + b + c
  {
  }
}
