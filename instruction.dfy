/** Instruction decoding (src/cpu/instruction.rs). Only opcode 0x00 is decoded;
    every other byte reaches `todo!()`, modelled here as an error result. */
module CpuInstruction {
  import opened Wrappers

  datatype Opcode = NOP | LD

  datatype AddressingMode = Implied

  datatype Instruction = Instruction(opcode: Opcode, addressingMode: AddressingMode)
  {
    /** Builds an instruction from its opcode and addressing mode. */
    static function New(opcode: Opcode, addressingMode: AddressingMode): (i: Instruction)
      ensures i.opcode == opcode && i.addressingMode == addressingMode
    {
      Instruction(opcode, addressingMode)
    }
  }

  /** The panic of `todo!()` for a byte the decoder does not handle yet. */
  datatype DecodeError = NotYetImplemented

  /** Decodes one opcode byte. */
  function Decode(byte: bv8): (r: Result<Instruction, DecodeError>)
    ensures r.Ok? <==> byte == 0x00
    ensures r.Ok? ==> r.value.opcode == NOP && r.value.addressingMode == Implied
    ensures r.Err? ==> r.error == NotYetImplemented
  {
    match byte
    case 0x00 => Ok(Instruction.New(NOP, Implied))
    case _ => Err(NotYetImplemented)
  }

  /** LD is declared but no byte decodes to it, and no decoded instruction
      uses an addressing mode other than Implied. */
  lemma DecodeNeverYieldsLd(byte: bv8)
    ensures Decode(byte).Ok? ==> Decode(byte).value.opcode != LD
    ensures Decode(byte).Ok? ==> Decode(byte).value == Instruction(NOP, Implied)
  {
  }
}
