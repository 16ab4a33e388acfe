/** What the engine, its simulators and the three order books have in common. */
module Trading {
  type u32 = x: int | 0 <= x < 0x1_0000_0000

  datatype Side = Buy | Sell

  function Min(a: u32, b: u32): u32 {
    if a < b then a else b
  }
}
