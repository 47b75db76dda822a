/** The bit-packed external nullifier of a PBH transaction. */
module ExternalNullifiers {
  import opened Wrappers

  datatype ExternalNullifier = ExternalNullifier(year: bv16, month: bv8, nonce: bv16)

  /** The only prefix version. */
  const V1: bv64 := 1

  const LIMIT: bv256 := 0x1_0000_0000_0000

  /** Version in bits 0-7, nonce in bits 8-23, month in bits 24-31, year in bits 32-47. */
  function Encode(e: ExternalNullifier): (value: bv256)
    ensures value < LIMIT && value & 0xFF == 1
    ensures value >> 32 == e.year as bv256
    ensures (value >> 24) & 0xFF == e.month as bv256
    ensures (value >> 8) & 0xFFFF == e.nonce as bv256
  {
    (((e.year as bv64) << 32) | ((e.month as bv64) << 24) | ((e.nonce as bv64) << 8) | V1) as bv256
  }

  /** Accepts exactly the words below 2^48 whose low byte is the version, and encoding gives the word back. */
  function Decode(value: bv256): (r: Result<ExternalNullifier, string>)
    ensures r.Success? <==> value < LIMIT && value & 0xFF == 1
    ensures r.Success? ==> Encode(r.value) == value
  {
    if value > LIMIT then Failure("invalid external nullifier")
    else
      var word := (value & 0xFFFF_FFFF_FFFF_FFFF) as bv64;
      var year := ((word >> 32) & 0xFFFF) as bv16;
      var month := ((word >> 24) & 0xFF) as bv8;
      var nonce := ((word >> 8) & 0xFFFF) as bv16;
      var version := word & 0xFF;
      if version != V1 then Failure("invalid external nullifier version")
      else Success(ExternalNullifier(year, month, nonce))
  }

  lemma DecodeEncode(e: ExternalNullifier)
    ensures Decode(Encode(e)) == Success(e)
  {}

  /** The bound itself passes the range check and falls to its version byte. */
  lemma LimitFailsOnVersion()
    ensures Decode(LIMIT) == Failure("invalid external nullifier version")
  {}
}
