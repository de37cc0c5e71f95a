# A verified model of an early Game Boy emulator core

This project models the parts of the emulator that have stated behaviour. Each is a Dafny module named after its Rust source file.

- `Cpu` (`src/cpu/mod.rs`) is the register file. It holds six 16-bit register pairs `af`, `bc`, `de`, `hl`, `sp` and `pc`. The 8-bit registers `a`, `b`, `d`, `h` are the high bytes of their pairs and `f`, `c`, `e`, `l` the low bytes, taken by the masks `0xFF00` and `0x00FF` and a shift. The module also gives the two initial states, all-zero and the DMG post-boot values, and `Cpu::new`. Registers are a datatype and the accessors are functions of it, so no accessor can change a register.
- `CpuInstruction` (`src/cpu/instruction.rs`) is the decoder. Byte `0x00` decodes to `NOP` with `Implied` addressing. Every other byte reaches `todo!()`, which here is the error result `NotYetImplemented`. `Instruction::new` is `Instruction.New`.
- `Utf8` is the validity check behind `String::from_utf8`: the UTF-8 grammar of section 4 of RFC 3629, written rule by rule. It also has `trim_end_matches` for a one-character pattern (`TrimEnd`). A Rust `String` is modelled by its UTF-8 bytes, and a character by the bytes that encode it (`Chars` splits a well-formed sequence into characters). U+0000 is encoded only as the single byte `0x00`, and `0x00` is never a continuation byte. So trimming `'\0'` characters is the same as dropping trailing `0x00` bytes (`TrimNulBytesTrimsNulChars`).
- `CartridgeHeader` (`src/cartridge/header.rs`) is `get_header` and `read_string`. It copies five single bytes at fixed offsets and reads three optional strings from end-exclusive slices, exactly as the code writes them. The title is `[0x134, 0x143)`, 15 bytes. The manufacturer code is `[0x13F, 0x142)`, 3 bytes inside the title. The licensee code is `[0x144, 0x145)`, a single byte.
- `Cartridge` (`src/cartridge/mod.rs`) is the size check of `TryFrom<Vec<u8>>`, which accepts an image of at most 1,572,864 bytes, and `metadata`.
- `Memory` (`src/memory/mod.rs`) is the flat 8 KiB work memory. It is a class over a `bv8` array, zero-initialised, with byte read, byte write and a big-endian word read. An index out of range panics in the source; here it is a precondition.

Rust `u8` and `u16` are `bv8` and `bv16`. A memory address is a `u16` held as an integer in `[0, 0x10000)`, so that `addr + 1` cannot wrap, just as the source casts to `usize` before adding. Lengths (`usize`) are `nat`.

The model keeps the code's offsets and byte order, including where they differ from the cartridge header layout that `src/cartridge/header.rs:3` cites (the Pan Docs page "The Cartridge Header"):

- `get_header` indexes `bytes[0x149]`, so it needs an image of at least 0x14A bytes. Shorter images panic, so in the model that length is a precondition.
- The slices are end-exclusive, so each string is one byte shorter than its header field. The title is read from `[0x134, 0x143)`, 15 bytes, where the field is 0x134–0x143. The manufacturer code is read from `[0x13F, 0x142)`, 3 bytes, where the field is 0x13F–0x142, 4 bytes. The licensee code is read from `[0x144, 0x145)`, 1 byte, where the field is 0x144–0x145, 2 bytes.
- `read_string` accepts any well-formed UTF-8 for the title, not only the console's uppercase ASCII.
- `read_word` puts the byte at the lower address in the high half of the word (big-endian), although the console is little-endian.

## Model

| member | source | states |
|---|---|---|
| Cpu.HighByte | src/cpu/mod.rs:3 | masking with `0xFF00` and shifting right by 8 gives the pair divided by 256 |
| Cpu.LowByte | src/cpu/mod.rs:4 | masking with `0x00FF` gives the pair modulo 256 |
| Cpu.PairSplits | src/cpu/mod.rs:3-4 | the two masks are disjoint and cover all 16 bits; both high × 256 + low and the shift-and-or of the two bytes give back the pair |
| Cpu.PairDeterminedByBytes | src/cpu/mod.rs:3-4 | two pairs are equal iff their high bytes and their low bytes are equal |
| Cpu.Registers.New | src/cpu/mod.rs:6-19 | every register and every 8-bit accessor is 0 |
| Cpu.Registers.Dmg | src/cpu/mod.rs:21-30 | post-boot state: a=0x01, f=0xB0, b=0x00, c=0x13, d=0x00, e=0xD8, h=0x01, l=0x4D, sp=0xFFFE, pc=0x0100 |
| Cpu.Registers.A | src/cpu/mod.rs:32-34 | `a` is the high byte of `af` (af / 256) |
| Cpu.Registers.F | src/cpu/mod.rs:36-38 | `f` is the low byte of `af` (af mod 256) |
| Cpu.Registers.B | src/cpu/mod.rs:40-42 | `b` is the high byte of `bc` |
| Cpu.Registers.C | src/cpu/mod.rs:44-46 | `c` is the low byte of `bc` |
| Cpu.Registers.D | src/cpu/mod.rs:48-50 | `d` is the high byte of `de` |
| Cpu.Registers.E | src/cpu/mod.rs:52-54 | `e` is the low byte of `de` |
| Cpu.Registers.H | src/cpu/mod.rs:56-58 | `h` is the high byte of `hl` |
| Cpu.Registers.L | src/cpu/mod.rs:60-62 | `l` is the low byte of `hl` |
| Cpu.AccessorsRecombine | src/cpu/mod.rs:32-62 | for each of af, bc, de, hl: high accessor × 256 + low accessor equals the pair |
| Cpu.AccessorExamples | src/cpu/mod.rs:80-134 | the eight unit tests: in the all-zero register file, a pair set to 0xDEAD reads 0xDE through its high accessor and 0xAD through its low accessor |
| Cpu.AfUpdateLeavesOthers | src/cpu/mod.rs:40-62 | for every register file and value, assigning af leaves b, c, d, e, h, l unchanged |
| Cpu.BcUpdateLeavesOthers | src/cpu/mod.rs:32-62 | assigning bc leaves a, f, d, e, h, l unchanged |
| Cpu.DeUpdateLeavesOthers | src/cpu/mod.rs:32-62 | assigning de leaves a, f, b, c, h, l unchanged |
| Cpu.HlUpdateLeavesOthers | src/cpu/mod.rs:32-54 | assigning hl leaves a, f, b, c, d, e unchanged |
| Cpu.Cpu.New | src/cpu/mod.rs:65-73 | a new CPU has the all-zero register file |
| CpuInstruction.Instruction.New | src/cpu/instruction.rs:20-25 | the instruction holds the given opcode and addressing mode unchanged |
| CpuInstruction.Decode | src/cpu/instruction.rs:27-32 | decoding succeeds iff the byte is 0x00, giving NOP with Implied addressing; every other byte fails with NotYetImplemented |
| CpuInstruction.DecodeNeverYieldsLd | src/cpu/instruction.rs:10-31 | no byte decodes to LD or to anything but (NOP, Implied) |
| Utf8.IsChar | src/cartridge/header.rs:35 | `UTF8-char` of section 4 of RFC 3629: the one- to four-byte encodings, excluding overlong forms, surrogates and values above U+10FFFF |
| Utf8.WellFormed | src/cartridge/header.rs:35 | the bytes `String::from_utf8` accepts: `UTF8-octets`, read one character at a time from the front |
| Utf8.Flatten | src/cartridge/header.rs:35 | the bytes of a list of encoded characters, one after another |
| Utf8.WellFormedIffSplits | src/cartridge/header.rs:35 | a byte sequence is well-formed exactly when it is the concatenation of some list of characters (`UTF8-octets = *( UTF8-char )`), in both directions |
| Utf8.CharShape | src/cartridge/header.rs:35 | a UTF-8 character is 1 to 4 bytes, all bytes after the first are continuation bytes, and a character containing 0x00 is exactly U+0000 |
| Utf8.CharWidth | src/cartridge/header.rs:35 | the length of the one character that is a prefix of the input, or 0 exactly when no prefix is a character; at most one prefix is a character |
| Utf8.Chars | src/cartridge/header.rs:35 | splits well-formed bytes into characters that are each well-formed by the grammar and that concatenate back to the input |
| Utf8.CharsOfFlatten | src/cartridge/header.rs:35 | concatenating characters gives well-formed bytes, and splitting them gives back the same characters (round trip) |
| Utf8.FlattenAppend | src/cartridge/header.rs:35 | concatenating two lists of characters concatenates their bytes |
| Utf8.ConcatWellFormed | src/cartridge/header.rs:35 | the grammar is closed under concatenation: two well-formed sequences concatenate to a well-formed sequence whose characters are the first list followed by the second |
| Utf8.DropTrailingNul | src/cartridge/header.rs:35-36 | a well-formed sequence ending in 0x00 ends in the character U+0000, and dropping that byte leaves a well-formed sequence |
| Utf8.LastChar | src/cartridge/header.rs:35-36 | if the last character is U+0000, the last byte is 0x00 |
| Utf8.TrimEnd | src/cartridge/header.rs:36 | the result is a prefix of the input, does not end in the pattern, and everything removed equals the pattern |
| Utf8.TrimEndUnique | src/cartridge/header.rs:36 | those three properties determine the trimmed result |
| Utf8.TrimEndIdempotent | src/cartridge/header.rs:36 | trimming again changes nothing |
| Utf8.TrimEndKeepsInner | src/cartridge/header.rs:36 | an element followed later by a different element is kept |
| Utf8.TrimNulBytesTrimsNulChars | src/cartridge/header.rs:35-36 | on well-formed input, dropping trailing 0x00 bytes keeps the input well-formed and removes exactly the trailing U+0000 characters |
| Utf8.AsciiWellFormed | src/cartridge/header.rs:35 | ASCII bytes are well-formed, one character per byte |
| CartridgeHeader.ReadString | src/cartridge/header.rs:32-39 | absent exactly when the slice is not well-formed UTF-8; otherwise a well-formed prefix of the slice that does not end in 0x00, with only 0x00 bytes removed, and whose characters are the slice's characters with trailing U+0000 trimmed |
| CartridgeHeader.GetHeader | src/cartridge/header.rs:18-30 | needs 0x14A bytes; raw_size is the input length; the strings are read from their slices; cgb, sgb, cartridge type, ROM size and RAM size are the bytes at 0x143, 0x146, 0x147, 0x148, 0x149 |
| CartridgeHeader.SliceExtents | src/cartridge/header.rs:21-23 | the end-exclusive slices are 15 bytes for the title, 3 bytes for the manufacturer (bytes 11–13 of the title), and one byte for the licensee |
| CartridgeHeader.FieldsDependOnlyOnTheirBytes | src/cartridge/header.rs:18-30 | each string field depends only on the bytes of its slice, and the whole header apart from raw_size depends only on bytes 0x134–0x149 |
| CartridgeHeader.PaddedAsciiTitle | src/cartridge/header.rs:21-36 | a non-empty ASCII title padded with 0x00 bytes reads as the text without the padding |
| CartridgeHeader.InvalidTitleIsAbsent | src/cartridge/header.rs:33-37 | a title slice starting with 0xFF is absent, not an error |
| Cartridge.TryFrom | src/cartridge/mod.rs:43-49 | succeeds iff the length is at most MAX_BYTES; the stored contents are the input unchanged; the only error is UnexpectedRomSize |
| Cartridge.Cartridge.Metadata | src/cartridge/mod.rs:33-37 | raw_size is the length of the contents |
| Cartridge.AcceptedSize | src/cartridge/mod.rs:1-49 | an accepted image reports its own length, at most 1,572,864; exactly 1,572,864 bytes is accepted and 1,572,865 is rejected with UnexpectedRomSize |
| Memory.Memory.constructor | src/memory/mod.rs:8-19 | a new memory holds exactly 8192 bytes, all zero |
| Memory.Memory.ReadByte | src/memory/mod.rs:21-23 | needs addr < 8192; the byte stored at addr |
| Memory.Memory.ReadWord | src/memory/mod.rs:25-30 | needs addr + 1 < 8192; data[addr] × 256 + data[addr + 1] |
| Memory.Memory.SetByte | src/memory/mod.rs:32-34 | afterwards addr reads the written byte, every other address reads what it read before, and the array is the old one with that one cell replaced |
| Memory.BigEndian | src/memory/mod.rs:29 | the shift-and-or of two bytes is high × 256 + low |
| Memory.BytesOfWord | src/memory/mod.rs:25-30 | a word equal to hi × 256 + lo has hi as its upper byte and lo as its lower byte, so the byte at the lower address is the word's upper byte |
| Memory.WordIsTwoBytes | src/memory/mod.rs:21-30 | read_word(addr) equals read_byte(addr) × 256 + read_byte(addr + 1) |

## Left out

- `cartridge::read` (`src/cartridge/mod.rs:17-20`) and the `From<std::io::Error>` conversion: file-system I/O. `IoError` is kept as a constructor without its `std::io::Error` payload. `TryFrom` never produces it.
- `src/main.rs`: argument parsing, console output and error wrapping. It also reads a `header` field that `Cartridge` does not have.
- Cartridge-type enumeration, memory-bank controllers, a memory bus, CPU flags and instruction execution: the emulator has none of these yet. The cartridge type is kept as the raw byte at 0x147, and the flags as the low byte of `af`.
- `src/gb.rs`: `Gb` only wraps a `Cpu` from `Cpu::new`, and `run` does nothing.
- Unicode code points: strings and characters are kept as their UTF-8 bytes, and no code point values are computed. The grammar fixes which byte sequences are characters, and that is all `from_utf8` and the trim depend on.
- Panics: an out-of-range index (`get_header` on a short image, memory accesses past 8191) is a precondition. The `todo!()` of `decode` is the error result `NotYetImplemented`.
- `#[derive(Debug)]` formatting and `String` allocation.
- `Memory`'s `[u8; 8192]` is an array created by the constructor that never changes length. Rust's `Default` and `new` are both the constructor.
