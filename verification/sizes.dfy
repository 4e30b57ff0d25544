/** The message and chunk sizes that the layers share. */
module Sizes {
  const KB := 1024

  const TINY_MESSAGE := 1 * KB
  const SMALL_MESSAGE := 16 * KB
  const MEDIUM_MESSAGE := 128 * KB
  const LARGE_MESSAGE := 1024 * KB

  const SMALL_CHUNK := 4 * KB
  const MEDIUM_CHUNK := 16 * KB
  const LARGE_CHUNK := 64 * KB
  const HUGE_CHUNK := 256 * KB
}
