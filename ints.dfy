/** The fixed-width unsigned integer types of the C++ source. */
module Ints {
  /** `uint8_t`: one byte of a C string. */
  type uint8 = x: int | 0 <= x < 0x100

  /** `unsigned int` / `uint32_t` / `GLuint`. */
  type uint32 = x: int | 0 <= x < 0x1_0000_0000
}
