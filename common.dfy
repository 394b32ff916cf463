/** Values shared by every layer: optional values, results, and record identifiers. */
module Common {

  datatype Option<+T> = None | Some(value: T)

  datatype Result<+T, +E> = Success(value: T) | Failure(error: E)

  /** A record identifier. `text` is its canonical string form (what `uuid.String()` prints);
      two identifiers are equal exactly when their texts are. */
  datatype Uuid = Uuid(text: string)

  /** `uuid.Nil`, the all-zero identifier that a missing JSON field decodes to. */
  const NilUuid: Uuid := Uuid("00000000-0000-0000-0000-000000000000")

  /** Go's `int` on the 64-bit targets the service is built for. */
  const IntMin: int := -0x8000_0000_0000_0000
  const IntMax: int := 0x7FFF_FFFF_FFFF_FFFF
  const IntModulus: int := 0x1_0000_0000_0000_0000

  predicate InInt(x: int) {
    IntMin <= x <= IntMax
  }

  /** What Go's two's-complement `int` arithmetic leaves of the exact result `x`: the one
      value in range that differs from `x` by a multiple of 2^64. */
  function WrapInt(x: int): (r: int)
    ensures InInt(r)
    ensures (x - r) % IntModulus == 0
    ensures InInt(x) ==> r == x
  {
    var m := x % IntModulus;
    if m > IntMax then m - IntModulus else m
  }

  /** The tenors (in months) a credit limit or a contract may have: 1, 2, 3 or 6. */
  predicate IsValidTenor(tenor: int) {
    tenor == 1 || tenor == 2 || tenor == 3 || tenor == 6
  }
}
