/** The register file of the CPU: six 16-bit register pairs and the accessors
    for the 8-bit registers packed into af, bc, de and hl (src/cpu/mod.rs). */
module Cpu {
  /** Mask that keeps the high byte of a register pair. */
  const H_BIT_MASK: bv16 := 0xFF00
  /** Mask that keeps the low byte of a register pair. */
  const L_BIT_MASK: bv16 := 0x00FF

  /** The high byte of a pair, taken by masking and shifting right by 8. */
  function HighByte(w: bv16): (r: bv8)
    ensures r as bv16 == w / 256
  {
    ((w & H_BIT_MASK) >> 8) as bv8
  }

  /** The low byte of a pair, taken by masking. */
  function LowByte(w: bv16): (r: bv8)
    ensures r as bv16 == w % 256
  {
    (w & L_BIT_MASK) as bv8
  }

  /** The two masks are disjoint and together cover all 16 bits, so the
      high and low bytes recombine into the pair they were taken from. */
  lemma PairSplits(w: bv16)
    ensures H_BIT_MASK & L_BIT_MASK == 0 && H_BIT_MASK | L_BIT_MASK == 0xFFFF
    ensures (HighByte(w) as bv16) * 256 + LowByte(w) as bv16 == w
    ensures ((HighByte(w) as bv16) << 8) | LowByte(w) as bv16 == w
  {
  }

  /** A pair is determined by its two bytes. */
  lemma PairDeterminedByBytes(w: bv16, v: bv16)
    ensures HighByte(w) == HighByte(v) && LowByte(w) == LowByte(v) <==> w == v
  {
  }

  datatype Registers = Registers(af: bv16, bc: bv16, de: bv16, hl: bv16, sp: bv16, pc: bv16)
  {
    /** The derived default: every register is zero. */
    static function New(): (r: Registers)
      ensures r.af == 0 && r.bc == 0 && r.de == 0 && r.hl == 0 && r.sp == 0 && r.pc == 0
      ensures r.A() == 0 && r.F() == 0 && r.B() == 0 && r.C() == 0
      ensures r.D() == 0 && r.E() == 0 && r.H() == 0 && r.L() == 0
    {
      Registers(0, 0, 0, 0, 0, 0)
    }

    /** The values the DMG boot program leaves in the registers. */
    static function Dmg(): (r: Registers)
      ensures r.A() == 0x01 && r.F() == 0xB0
      ensures r.B() == 0x00 && r.C() == 0x13
      ensures r.D() == 0x00 && r.E() == 0xD8
      ensures r.H() == 0x01 && r.L() == 0x4D
      ensures r.sp == 0xFFFE && r.pc == 0x0100
    {
      Registers(0x01B0, 0x0013, 0x00D8, 0x014D, 0xFFFE, 0x0100)
    }

    /** Accumulator: the high byte of af. */
    function A(): (r: bv8)
      ensures r as bv16 == af / 256
    {
      HighByte(af)
    }

    /** Flag register: the low byte of af. */
    function F(): (r: bv8)
      ensures r as bv16 == af % 256
    {
      LowByte(af)
    }

    function B(): (r: bv8)
      ensures r as bv16 == bc / 256
    {
      HighByte(bc)
    }

    function C(): (r: bv8)
      ensures r as bv16 == bc % 256
    {
      LowByte(bc)
    }

    function D(): (r: bv8)
      ensures r as bv16 == de / 256
    {
      HighByte(de)
    }

    function E(): (r: bv8)
      ensures r as bv16 == de % 256
    {
      LowByte(de)
    }

    function H(): (r: bv8)
      ensures r as bv16 == hl / 256
    {
      HighByte(hl)
    }

    function L(): (r: bv8)
      ensures r as bv16 == hl % 256
    {
      LowByte(hl)
    }
  }

  /** For every pair, the high accessor times 256 plus the low accessor is the pair. */
  lemma AccessorsRecombine(r: Registers)
    ensures (r.A() as bv16) * 256 + r.F() as bv16 == r.af
    ensures (r.B() as bv16) * 256 + r.C() as bv16 == r.bc
    ensures (r.D() as bv16) * 256 + r.E() as bv16 == r.de
    ensures (r.H() as bv16) * 256 + r.L() as bv16 == r.hl
  {
  }

  /** The unit tests of src/cpu/mod.rs: a pair of the all-zero register file
      set to 0xDEAD reads 0xDE through its high accessor and 0xAD through its
      low accessor. */
  lemma AccessorExamples()
    ensures Registers.New().(af := 0xDEAD).A() == 0xDE && Registers.New().(af := 0xDEAD).F() == 0xAD
    ensures Registers.New().(bc := 0xDEAD).B() == 0xDE && Registers.New().(bc := 0xDEAD).C() == 0xAD
    ensures Registers.New().(de := 0xDEAD).D() == 0xDE && Registers.New().(de := 0xDEAD).E() == 0xAD
    ensures Registers.New().(hl := 0xDEAD).H() == 0xDE && Registers.New().(hl := 0xDEAD).L() == 0xAD
  {
  }

  /** Each accessor reads only its own pair: assigning af leaves the
      accessors of bc, de and hl as they were. */
  lemma AfUpdateLeavesOthers(r: Registers, w: bv16)
    ensures r.(af := w).B() == r.B() && r.(af := w).C() == r.C()
    ensures r.(af := w).D() == r.D() && r.(af := w).E() == r.E()
    ensures r.(af := w).H() == r.H() && r.(af := w).L() == r.L()
  {
  }

  /** Assigning bc leaves the accessors of af, de and hl as they were. */
  lemma BcUpdateLeavesOthers(r: Registers, w: bv16)
    ensures r.(bc := w).A() == r.A() && r.(bc := w).F() == r.F()
    ensures r.(bc := w).D() == r.D() && r.(bc := w).E() == r.E()
    ensures r.(bc := w).H() == r.H() && r.(bc := w).L() == r.L()
  {
  }

  /** Assigning de leaves the accessors of af, bc and hl as they were. */
  lemma DeUpdateLeavesOthers(r: Registers, w: bv16)
    ensures r.(de := w).A() == r.A() && r.(de := w).F() == r.F()
    ensures r.(de := w).B() == r.B() && r.(de := w).C() == r.C()
    ensures r.(de := w).H() == r.H() && r.(de := w).L() == r.L()
  {
  }

  /** Assigning hl leaves the accessors of af, bc and de as they were. */
  lemma HlUpdateLeavesOthers(r: Registers, w: bv16)
    ensures r.(hl := w).A() == r.A() && r.(hl := w).F() == r.F()
    ensures r.(hl := w).B() == r.B() && r.(hl := w).C() == r.C()
    ensures r.(hl := w).D() == r.D() && r.(hl := w).E() == r.E()
  {
  }

  datatype Cpu = Cpu(registers: Registers)
  {
    /** The derived default: a CPU whose registers are all zero. */
    static function New(): (c: Cpu)
      ensures c.registers == Registers.New()
      ensures c.registers.A() == 0 && c.registers.F() == 0 && c.registers.sp == 0 && c.registers.pc == 0
    {
      Cpu(Registers.New())
    }
  }
}
