/** Bytes, fixed-width integers and error codes shared by the other modules. */
module Common {
  datatype Option<+T> = None | Some(value: T)

  type byte = x: int | 0 <= x < 0x100
  type uint32 = x: int | 0 <= x < 0x1_0000_0000

  const MOD32: int := 0x1_0000_0000
  const HALF32: int := 0x8000_0000

  /** Reduction to an unsigned 32-bit word. */
  function Wrap32(x: int): (r: uint32)
  {
    x % MOD32
  }

  /** The two's complement reading of the low 32 bits of `x`. */
  function ToSigned(x: int): int
  {
    if x % MOD32 < HALF32 then x % MOD32 else x % MOD32 - MOD32
  }

  function Min(a: int, b: int): int
  {
    if a <= b then a else b
  }

  /** The bytes of a text in ASCII. */
  function Ascii(text: string): (s: seq<byte>)
    ensures |s| == |text|
  {
    seq(|text|, i requires 0 <= i < |text| => text[i] as int % 128)
  }

  // The error numbers the client reports, as the C library spells them.
  const ENOENT: int := 2
  const EIO: int := 5
  const EAGAIN: int := 11
  const ENOMEM: int := 12
  const EACCES: int := 13
  const EFAULT: int := 14
  const EBUSY: int := 16
  const EINVAL: int := 22
  const ENOSPC: int := 28
  const E2BIG: int := 7
  const EBADMSG: int := 74
  const EMSGSIZE: int := 90
  const ENETDOWN: int := 100
  const ENOTCONN: int := 107
  const ESHUTDOWN: int := 108
  const EALREADY: int := 114
  const ETIMEDOUT: int := 110
  const ENOTSUP: int := 95
}
