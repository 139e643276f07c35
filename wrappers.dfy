/** Failure-carrying results shared by every module of the codeplug model. */
module Wrappers {

  datatype Option<T> = None | Some(value: T)

  /** The errors the original code throws, one constructor per distinct cause. */
  datatype Error =
    | NotFetched                                   // a region method called before fetchCodeplug
    | ReadFailed(block: int)                       // readBlock timed out or failed its header or checksum check
    | BadLength                                    // a block or image of the wrong size
    | OutOfRange                                   // Node's RangeError from a Buffer read or write
    | BadMagic                                     // band plan magic bytes are not 0xA4 0x6D
    | BadIndex                                     // group label index outside 0..14
    | Timeout                                      // no complete response before the timer fired
    | MissingExpectedLength                        // waitForResponse without an expectedLength
    | BadHeader(got: int)                          // read reply does not start with 0x30
    | ChecksumMismatch(received: int, calculated: int)
    | VerificationFailed(block: int)               // full-image write: the ack byte was not 0x31
    | WriteError                                   // the serial port reported a write error

  datatype Result<T> = Ok(value: T) | Err(error: Error)

  datatype Outcome = Pass | Fail(error: Error)
}
