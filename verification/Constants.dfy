/** Bytes and the constants of app/tcp/constants.py. */
module Constants {
  type byte = b: int | 0 <= b < 256

  type Bytes = seq<byte>

  const FRAME_HEAD: Bytes := [0x40, 0xBF, 0x80, 0x7F]
  const FRAME_RECV_HEAD: Bytes := [0x20, 0xBF, 0x40, 0x7F]
  const FRAME_END: Bytes := [0x50, 0xAF, 0xA0, 0x5F]
  const COMMUNICATION_KEY := "123456789"
}
