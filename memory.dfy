/** Flat 8 KiB work memory (src/memory/mod.rs). */
module Memory {
  /** Size of the work memory in bytes. */
  const DMG_MEM_SIZE: nat := 1024 * 8

  /** A `u16` address. */
  type Address = a: int | 0 <= a < 0x1_0000

  /** A word from its high and its low byte, by shift and or. */
  function BigEndian(hi: bv8, lo: bv8): (w: bv16)
    ensures w == (hi as bv16) * 256 + lo as bv16
  {
    ((hi as bv16) << 8) | lo as bv16
  }

  class Memory {
    const data: array<bv8>

    ghost predicate Valid() {
      data.Length == DMG_MEM_SIZE
    }

    /** Both `new` and `default`: 8192 bytes, all zero. */
    constructor ()
      ensures Valid() && fresh(data)
      ensures forall i | 0 <= i < data.Length :: data[i] == 0
    {
      data := new bv8[DMG_MEM_SIZE](_ => 0);
    }

    /** The byte at `addr`; an address past the end panics in the source. */
    function ReadByte(addr: Address): (b: bv8)
      reads data
      requires Valid() && addr < DMG_MEM_SIZE
      ensures b == data[addr]
    {
      data[addr]
    }

    /** The word at `addr`, big-endian: the byte at `addr` is the high byte,
        the byte at `addr + 1` the low byte. */
    function ReadWord(addr: Address): (w: bv16)
      reads data
      requires Valid() && addr + 1 < DMG_MEM_SIZE
      ensures w == (data[addr] as bv16) * 256 + data[addr + 1] as bv16
    {
      var start := addr;
      var end := addr + 1;
      BigEndian(data[start], data[end])
    }

    /** Stores `byte` at `addr`; every other cell keeps its value. */
    method SetByte(addr: Address, byte: bv8)
      requires Valid() && addr < DMG_MEM_SIZE
      modifies data
      ensures Valid()
      ensures ReadByte(addr) == byte
      ensures forall a: Address | a < DMG_MEM_SIZE && a != addr :: ReadByte(a) == old(ReadByte(a))
      ensures data[..] == old(data[..])[addr := byte]
    {
      data[addr] := byte;
    }
  }

  /** A word whose value is `hi * 256 + lo` has `hi` as its upper and `lo`
      as its lower byte: with WordIsTwoBytes, the byte at the lower address
      is the upper byte of the word read (big-endian). */
  lemma BytesOfWord(w: bv16, hi: bv8, lo: bv8)
    requires w == (hi as bv16) * 256 + lo as bv16
    ensures (w >> 8) as bv8 == hi && (w & 0x00FF) as bv8 == lo
  {
  }

  /** A word read is the two byte reads at `addr` and `addr + 1`, the byte
      at the lower address counting 256 times. */
  lemma WordIsTwoBytes(m: Memory, addr: Address)
    requires m.Valid() && addr + 1 < DMG_MEM_SIZE
    ensures m.ReadWord(addr) == (m.ReadByte(addr) as bv16) * 256 + m.ReadByte(addr + 1) as bv16
  {
  }
}
