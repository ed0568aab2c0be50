// On-disk byte order: the original Xbox is little-endian, the Xbox 360 big-endian.
// The host is little-endian.

module Endian {
  import opened Bytes

  datatype Variant = Xbox | X360

  function FromDisk16(variant: Variant, x: u16): u16
  {
    if variant.X360? then Swap16(x) else x
  }

  function FromDisk32(variant: Variant, x: u32): u32
  {
    if variant.X360? then Swap32(x) else x
  }

  function ToDisk16(variant: Variant, x: u16): u16
  {
    FromDisk16(variant, x)
  }

  function ToDisk32(variant: Variant, x: u32): u32
  {
    FromDisk32(variant, x)
  }

  lemma DiskRoundTrip16(variant: Variant, x: u16)
    ensures FromDisk16(variant, ToDisk16(variant, x)) == x
    ensures ToDisk16(variant, FromDisk16(variant, x)) == x
  {
    Swap16Involution(x);
  }

  lemma DiskRoundTrip32(variant: Variant, x: u32)
    ensures FromDisk32(variant, ToDisk32(variant, x)) == x
    ensures ToDisk32(variant, FromDisk32(variant, x)) == x
  {
    Swap32Involution(x);
  }

  const SIGNATURE: u32 := 0x58544146

  // fatx_variant_from_raw_signature; None stands for FATX_VARIANT_AUTO.
  datatype Detected = NotFatx | Found(variant: Variant)

  function VariantFromRawSignature(raw: u32): Detected
  {
    if raw == SIGNATURE then Found(Xbox)
    else if Swap32(raw) == SIGNATURE then Found(X360)
    else NotFatx
  }

  // Detection recovers exactly the variant whose byte order wrote the signature.
  lemma DetectionInvertsWriting(raw: u32, variant: Variant)
    ensures VariantFromRawSignature(raw) == Found(variant) <==> raw == ToDisk32(variant, SIGNATURE)
  {
    Swap32Involution(raw);
    Swap32Involution(SIGNATURE);
    SignatureIsNoPalindrome();
  }

  lemma SignatureIsNoPalindrome()
    ensures Swap32(SIGNATURE) != SIGNATURE
  {
    assert Bytes32(SIGNATURE)[0] == 0x46 && Bytes32(SIGNATURE)[3] == 0x58;
  }
}
