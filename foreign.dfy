/**
 * The library calls the account service makes but whose internals are not part of this model:
 * HMAC-SHA3-256 (crates `hmac` and `sha3`), `Display` of a `chrono::DateTime<Utc>` and
 * `bcrypt::hash`.  Each one is a total function value inside `Primitives`; nothing is assumed
 * about them, so every property proved here holds whatever these functions compute.
 */
module Foreign {

  /** Rust's `u64` and `u16`, the widths drawn from the random generator. */
  type u64 = x: int | 0 <= x < 0x1_0000_0000_0000_0000
  type u16 = x: int | 0 <= x < 0x1_0000

  /** A UTC instant, in nanoseconds since the Unix epoch (the resolution of `chrono`). */
  type Instant = int

  /** Raw MAC output bytes, as carried (base64-encoded) in a link. */
  type Token = seq<bv8>

  datatype Primitives = Primitives(
    /** HMAC-SHA3-256 keyed with the first argument over the UTF-8 bytes of the second. */
    mac: (string, string) -> Token,
    /** `expires.to_string()`: chrono's `YYYY-MM-DD hh:mm:ss[.fffffffff] UTC`. */
    expiryText: Instant -> string,
    /** `bcrypt::hash(password, cost)`, treated as total (the source unwraps it). */
    bcrypt: (string, nat) -> string
  )
}
