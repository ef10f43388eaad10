/** Sample frames, shared by the sound queues. */
module Frames {

  /** A stereo sample frame. */
  datatype Frame = Frame(left: real, right: real)

  const SILENCE: Frame := Frame(0.0, 0.0)
}
