/** Machine words and error numbers, as the kernel defines them. */
module Kernel {
  type u16 = x: int | 0 <= x < 0x1_0000
  type u32 = x: int | 0 <= x < 0x1_0000_0000
  type s32 = x: int | -0x8000_0000 <= x < 0x8000_0000
  type u64 = x: int | 0 <= x < 0x1_0000_0000_0000_0000

  const U32: nat := 0x1_0000_0000
  const U64: nat := 0x1_0000_0000_0000_0000

  const EPERM := -1
  const EAGAIN := -11
  const ENOMEM := -12
  const EFAULT := -14
  const EINVAL := -22
}
