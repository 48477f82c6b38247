/** Integer ranges of the C++ types the model keeps. */
module Scalars {
  /** `unsigned short`: the type of a connection's target index. */
  type uint16 = x: int | 0 <= x < 0x1_0000

  /** One byte of the text corpus, read as an unsigned value. */
  type byte = x: int | 0 <= x < 0x100
}
