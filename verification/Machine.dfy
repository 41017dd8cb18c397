/** Unsigned integers of the AVR target, the usual optional value, and a common constant. */
module Machine {
  type Byte = b: int | 0 <= b < 0x100
  type U16 = w: int | 0 <= w < 0x1_0000
  type U32 = d: int | 0 <= d < 0x1_0000_0000

  datatype Option<+T> = None | Some(value: T)

  /** The highest step rate of the configuration, in steps per second. */
  const MAX_STEP_FREQUENCY: U16 := 40000

  /** Conversion of any integer to uint8_t. */
  function Wrap8(x: int): Byte { x % 0x100 }

  /** Conversion of any integer to uint16_t. */
  function Wrap16(x: int): U16 { x % 0x1_0000 }

  /** Conversion of any integer to uint32_t. */
  function Wrap32(x: int): U32 { x % 0x1_0000_0000 }

  /** uint8_t increment and decrement. */
  function Inc8(b: Byte): Byte { if b == 0xff then 0 else b + 1 }

  function Dec8(b: Byte): Byte { if b == 0 then 0xff else b - 1 }

  function Min(a: int, b: int): int { if a <= b then a else b }

  function Max(a: int, b: int): int { if a >= b then a else b }
}
