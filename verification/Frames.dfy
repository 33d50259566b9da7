/** What every consumer of stack traces agrees on. */
module Frames {

  datatype CallFrame = CallFrame(frame: nat, isForeign: bool)

  /** The innermost frames of a trace belong to the signal handler. */
  const NUMBER_OF_SIGNAL_HANDLER_FRAMES: nat := 3
}
