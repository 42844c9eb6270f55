/** The sizes of the shared-memory ring (src/raw_data/shm_raw.hpp:11-12). */
module SharedMemory {
  /** The words that a slot has room for. */
  const MAX_FRAME_SIZE := 2048

  /** The number of slots. daqd also takes it as its limit on the number of words of a frame. */
  const QUEUE_SIZE := 16384
}
