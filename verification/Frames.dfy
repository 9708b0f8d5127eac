/** What the frame queue, the pending store and the reset seed share: decoded
    frames, presentation timestamps and the tolerance they are compared with. */
module Frames {

  datatype Option<+T> = None | Some(value: T)

  /** Identity of one decoded frame buffer. */
  type FrameId = nat

  /** Timestamps closer than this (in seconds) count as equal. */
  const PTS_EPSILON: real := 0.000001

  /** A stored frame with what is kept beside it. */
  datatype Entry = Entry(frame: FrameId, pts: real, duration: real, queueOrigin: real,
                         storedUs: nat, warmup: bool)
}
