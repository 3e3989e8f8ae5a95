/** Basic vocabulary of the name generator: the bytes it works on, the draws of
    its random source and the two marker bytes that bracket a training name. */
module Bytes {

  /** One byte of a name. Training indexes names through their byte view and
      casts each byte to a character, so characters are bytes throughout. */
  type Byte = b: int | 0 <= b < 256

  /** One value of the random source (`next_u32`). */
  type U32 = x: int | 0 <= x < 0x1_0000_0000

  /** The start marker `'^'`, put in front of every training name. */
  const StartChar: Byte := 94

  /** The end marker `'$'`, put after every training name; sampling it ends a name. */
  const EndChar: Byte := 36
}
