/** Types shared by the modules of the model: octets, optional values,
    results, and the library error codes the modelled functions return. */
module Common {

  /** An octet, the element type of the library's byte buffers. */
  type byte = b: int | 0 <= b < 0x100

  /** Two to the power 32: one past the largest 32-bit unsigned value. */
  const U32_LIMIT: nat := 0x1_0000_0000

  /** Two to the power 64: `size_t` arithmetic wraps modulo this value. */
  const SIZE_LIMIT: nat := 0x1_0000_0000_0000_0000

  /** A value or its absence; `None` stands for a NULL pointer. */
  datatype Option<+T> = None | Some(value: T)

  /** The outcome of an operation that yields a value or fails. */
  datatype Result<+T, +E> = Ok(value: T) | Err(error: E)

  /** The outcome of an operation that yields no value. */
  datatype Outcome<+E> = Pass | Fail(error: E)

  /** The negative error codes of the library that the modelled code returns. */
  datatype Error =
    | InvalidParameters   // GNUTLS_E_INVALID_PARAMETERS
    | InvalidRequest      // GNUTLS_E_INVALID_REQUEST
    | MemoryError         // GNUTLS_E_MEMORY_ERROR
    | UnwantedAlgorithm   // GNUTLS_E_UNWANTED_ALGORITHM
    | MpiScanFailed       // GNUTLS_E_MPI_SCAN_FAILED
    | NoCertificateFound  // GNUTLS_E_NO_CERTIFICATE_FOUND
    | UnknownError        // GNUTLS_E_UNKNOWN_ERROR
    | ParsingError        // GNUTLS_E_PARSING_ERROR
    | SetterError(code: int)  // a negative code passed through from a DN setter callback
}
