/** Optional values, results with an error, and the source's 32-bit counters. */
module Wrappers {
  datatype Option<+T> = None | Some(value: T)

  datatype Result<+T, +E> = Success(value: T) | Failure(error: E)

  datatype Outcome<+E> = Pass | Fail(error: E)
}

module MachineIntegers {
  const U32_LIMIT: int := 0x1_0000_0000

  newtype u32 = x: int | 0 <= x < U32_LIMIT

  const U32_MAX: u32 := 0xFFFF_FFFF

  function SaturatingAdd(a: u32, b: u32): u32 {
    if a > U32_MAX - b then U32_MAX else a + b
  }

  function SaturatingSub(a: u32, b: u32): u32 {
    if a < b then 0 else a - b
  }

  function SaturatingMul(a: u32, b: u32): u32 {
    var product := a as int * b as int;
    if 0 <= product < U32_LIMIT then product as u32 else U32_MAX
  }

  function MinU32(a: u32, b: u32): u32 {
    if a <= b then a else b
  }

  /** Over the whole numbers: the result where it fits 32 bits, and otherwise the nearest number that does. */
  lemma SaturatesExactly(a: u32, b: u32)
    ensures var sum, most := a as int + b as int, 4_294_967_295;
            && (sum <= most ==> SaturatingAdd(a, b) as int == sum)
            && (sum > most ==> SaturatingAdd(a, b) as int == most)
            && (a >= b ==> SaturatingSub(a, b) as int == a as int - b as int)
            && (a < b ==> SaturatingSub(a, b) as int == 0)
  {
  }

  lemma ProductIsNatural(x: nat, y: nat)
    ensures x * y >= 0
  {
  }

  lemma ProductSaturates(a: u32, b: u32, product: int)
    requires product == a as int * b as int
    ensures product <= 4_294_967_295 ==> SaturatingMul(a, b) as int == product
    ensures product > 4_294_967_295 ==> SaturatingMul(a, b) as int == 4_294_967_295
  {
    ProductIsNatural(a as nat, b as nat);
  }
}
