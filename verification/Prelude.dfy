// Shared value types: optional values, the fixed-width integers the Rust code
// uses, and checked arithmetic on them.
module Prelude {

  datatype Option<+T> = None | Some(value: T)

  const MAX_I64: int := 0x7FFF_FFFF_FFFF_FFFF
  const MAX_U64: int := 0xFFFF_FFFF_FFFF_FFFF

  type I64 = x: int | -0x8000_0000_0000_0000 <= x <= 0x7FFF_FFFF_FFFF_FFFF
  type U64 = x: int | 0 <= x <= 0xFFFF_FFFF_FFFF_FFFF
  type U32 = x: int | 0 <= x <= 0xFFFF_FFFF

  /** A column declared `CHECK (version >= 1)`. */
  type Version = x: int | 1 <= x <= 0x7FFF_FFFF_FFFF_FFFF witness 1

  function CheckedAdd(a: I64, b: I64): Option<I64> {
    if -0x8000_0000_0000_0000 <= a + b <= MAX_I64 then Some(a + b) else None
  }

  function CheckedSub(a: I64, b: I64): Option<I64> {
    if -0x8000_0000_0000_0000 <= a - b <= MAX_I64 then Some(a - b) else None
  }

  predicate IsLower(c: char) { 'a' <= c <= 'z' }

  predicate IsUpper(c: char) { 'A' <= c <= 'Z' }

  predicate IsDigit(c: char) { '0' <= c <= '9' }

  predicate IsAlphanumeric(c: char) { IsLower(c) || IsUpper(c) || IsDigit(c) }

  predicate IsLowerHex(c: char) { IsDigit(c) || 'a' <= c <= 'f' }

  function ToLower(c: char): char {
    if IsUpper(c) then (c as int + 32) as char else c
  }
}
