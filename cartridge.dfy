/** Cartridge images and their size check (src/cartridge/mod.rs). */
module Cartridge {
  import opened Wrappers

  /** The largest image accepted, in bytes. */
  const MAX_BYTES: nat := 1_572_864

  /** `IoError` stands for the wrapped `std::io::Error` of a failed file read. */
  datatype CartridgeError = IoError | UnexpectedRomSize

  /** `Metadata` in the source. */
  datatype CartridgeMetadata = CartridgeMetadata(raw_size: nat)

  datatype Cartridge = Cartridge(contents: seq<bv8>)
  {
    /** Metadata of the image: its size in bytes. */
    function Metadata(): (m: CartridgeMetadata)
      ensures m.raw_size == |contents|
    {
      CartridgeMetadata(|contents|)
    }
  }

  /** Wraps an image, refusing one larger than MAX_BYTES. */
  function TryFrom(bytes: seq<bv8>): (r: Result<Cartridge, CartridgeError>)
    ensures r.Ok? <==> |bytes| <= MAX_BYTES
    ensures r.Ok? ==> r.value.contents == bytes
    ensures r.Err? ==> r.error == UnexpectedRomSize
  {
    if |bytes| > MAX_BYTES then Err(UnexpectedRomSize) else Ok(Cartridge(bytes))
  }

  /** An accepted image reports its own length, which is at most MAX_BYTES;
      the boundary is inclusive. */
  lemma AcceptedSize(bytes: seq<bv8>)
    ensures TryFrom(bytes).Ok? ==> TryFrom(bytes).value.Metadata().raw_size == |bytes| <= MAX_BYTES
    ensures |bytes| == 1_572_864 ==> TryFrom(bytes).Ok?
    ensures |bytes| == 1_572_865 ==> TryFrom(bytes) == Err(UnexpectedRomSize)
  {
  }
}
