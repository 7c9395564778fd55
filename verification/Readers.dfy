/** The reader goroutine that internal/telebit/encoder.go and telebit.go start for each connection:
    it reads a buffer, offers it on a channel, and after the last one offers the error. */
module Readers {
  import opened Text

  /** `defaultBufferSize`. */
  const BUFFER_SIZE: nat := 8192

  /** What the goroutine does after the chunk it is offering has been taken. */
  datatype Next = More | Fails(eof: bool)

  /** The goroutine: in Read, blocked on the channel of chunks, on that of errors, or gone. */
  datatype Reader = Reading | Offering(chunk: bytes, next: Next) | Failing(eof: bool) | Stopped

  function NextReader(next: Next): Reader { match next case More => Reading case Fails(eof) => Failing(eof) }
}
