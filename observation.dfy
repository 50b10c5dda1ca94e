/**
 * The observation record stored by the cube, and the fixed-width integer
 * domains of its fields.
 */
module Observation {

  const I8_MIN: int := -0x80
  const I8_MAX: int := 0x7F
  const I64_MIN: int := -0x8000_0000_0000_0000
  const I64_MAX: int := 0x7FFF_FFFF_FFFF_FFFF

  /** Rust `i8`: the signal strength in dBm. */
  type Int8 = x: int | I8_MIN <= x <= I8_MAX

  /** Rust `i64`: the timestamp, in a unit the caller chooses. */
  type Int64 = x: int | I64_MIN <= x <= I64_MAX

  /** Rust `u8`. */
  type Byte = x: int | 0 <= x < 0x100

  /** Rust `[u8; 6]`: a hardware address. */
  type Mac = s: seq<Byte> | |s| == 6 witness [0, 0, 0, 0, 0, 0]

  /**
   * Rust `f64`, kept as its bit pattern: the indexing engine stores
   * coordinates as given and compares them only in the geographic queries,
   * which are not part of this model.
   */
  type F64 = bv64

  /** One beacon observation; no field is range-checked. */
  datatype Obs = Obs(rssi: Int8, mac: Mac, timestamp: Int64, lat: F64, lon: F64)

  /** The key of the MAC index. */
  function MacOf(o: Obs): Mac { o.mac }

  /** The key of the RSSI index. */
  function RssiOf(o: Obs): int { o.rssi }

  /** The key of the timestamp index. */
  function TimeOf(o: Obs): int { o.timestamp }

  /** `x` reduced into `i8` by two's-complement wrap-around (Rust `+` without overflow checks). */
  function WrapI8(x: int): (r: Int8)
    ensures I8_MIN <= x <= I8_MAX ==> r == x
    ensures (x - r) % 0x100 == 0
  {
    (x - I8_MIN) % 0x100 + I8_MIN
  }

  /** `x` reduced into `i64` by two's-complement wrap-around. */
  function WrapI64(x: int): (r: Int64)
    ensures I64_MIN <= x <= I64_MAX ==> r == x
    ensures (x - r) % 0x1_0000_0000_0000_0000 == 0
  {
    (x - I64_MIN) % 0x1_0000_0000_0000_0000 + I64_MIN
  }

}
