/** The exceptions raised by the packet-content engine, as values. */
module Errors {

  /** Which family of MPI layouts a caller asked for (RFC 4880 sections 5.1, 5.5.2, 5.5.3). */
  datatype Context = Encryption | Public | Secret

  datatype Error =
    /** `NotImplementedError` from a `Mapping` lookup; carries the mapping's type. */
    | NotImplemented(mapping: string)
    /** bitstring's `ReadError`: a read past the end of a region. */
    | ReadError
    /** The would-be `PGPException`: the algorithm has no MPI layout in this context. */
    | UnknownMpiAlgorithm(context: Context)
}
