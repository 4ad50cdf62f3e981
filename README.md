# CHIP-8 machine core (chipr-lib), modelled in Dafny

This project models the part of the `chipr-lib` CHIP-8 emulator that exists in
its library file: the machine's data model (4 KiB memory, sixteen 8-bit
registers, a 64 x 32 monochrome display, stack, timers, the pressed key and the
quirk configuration), the construction of the initial memory image and of the
initial machine, and instruction fetch: two bytes at the program counter become
an opcode (a 16-bit word plus four nibbles) that is matched against the
instruction families the emulator knows, or an emulation error.

Modules, one per component of `chipr-lib/src/lib.rs`:

- `Wrappers` (`wrappers.dfy`): `Option` and `Result`.
- `Bytes` (`bytes.dfy`): `Byte` (u8), `Nibble`, `Word` (u16) as integer subset types.
- `MemorySpace` (`memory.dfy`): `Memory`, the default font, `Memory::new`, and
  `new_with_program_and_font`. The last is a method that fills an array in two
  copy loops. Both it and the value-level `Image` are proved to hold the same
  cell-by-cell layout (`HoldsImage`), and that layout determines the memory.
- `RegisterBank` (`registers.dfy`): `Registers::new` and `Registers::update`.
- `DisplayGrid` (`display.dfy`): pixels and `Display::new`.
- `Decoder` (`decoder.dfy`): `OpCode::build`, `get_nnn`, and the `match` of
  `fetch` as `Decode`. It also holds a reference decoder `DecodeWord` on the
  16-bit word and an encoder `Encode`, the inverse against which decoding is
  proved.
- `Machine` (`machine.dfy`): `Chip8Machine`, `init_chip8machine`, and `fetch`.

Where the usual CHIP-8 behaviour and this code disagree, the model follows
the code, with one exception: the instruction word of
`chipr-lib/src/lib.rs:197`. The model uses the big-endian word
`high * 256 + low` that the code evidently intends, not the overflowing `u8`
expression it evaluates (see Findings). The points where the model follows
the code are:

- A program too large for memory panics on an out-of-range index in the code.
  It is not reported as a capacity error, so the model states it as a requires.
- The bytes 00E0 decode to `Operation0x00EE`, not to clear screen.
- The 3NNN and 4NNN families carry the 12-bit address, not a register and an
  immediate byte.
- Without a program the program counter starts at 0, not 0x200.
  `Machine.FetchWithoutProgram` shows what this implies: the first fetch is
  then an `Unsupported0x0NNN` error.

## Model

| member | source | states |
|---|---|---|
| `MemorySpace.New` | chipr-lib/src/lib.rs:41-45 | the fresh memory has 4096 cells, all zero |
| `MemorySpace.Overlay` | chipr-lib/src/lib.rs:50-52 | copying `bytes` from `start` leaves the length unchanged; cell `start + i` holds `bytes[i]` and every other cell keeps its value |
| `MemorySpace.Image` | chipr-lib/src/lib.rs:47-61 | the zeroed space overlaid with the program at 0x200 and then the font at 0x50 holds the image: 4096 cells, font bytes at 0x50..0x9F when a font is given, program bytes from 0x200 when a program is given, zero everywhere else |
| `MemorySpace.ImageIsUnique` | chipr-lib/src/lib.rs:47-61 | two memories holding the image of the same program and font are equal, so `NewWithProgramAndFont` and `Image` produce the same memory |
| `MemorySpace.EmptyImageIsNew` | chipr-lib/src/lib.rs:47-61 | with neither a program nor a font, the image is the zeroed memory of `Memory::new` |
| `MemorySpace.NewWithProgramAndFont` | chipr-lib/src/lib.rs:47-61 | the two in-place copy loops over a zeroed 4096-byte array produce a memory holding the image: the program from 0x200, the font at 0x50, zero elsewhere; requires a program of at most 4096 - 0x200 bytes |
| `RegisterBank.Registers.New` | chipr-lib/src/lib.rs:132-136 | sixteen registers, all zero |
| `RegisterBank.Registers.Update` | chipr-lib/src/lib.rs:126-130 | for `index < 16`, the copy holds `newValue` at `index` and every other slot is unchanged |
| `RegisterBank.UpdateLastWriteWins` | chipr-lib/src/lib.rs:126-130 | updating one slot twice equals updating it once with the second value |
| `RegisterBank.UpdateWithCurrentValue` | chipr-lib/src/lib.rs:126-130 | writing back a slot's own value returns the same bank |
| `RegisterBank.UpdatesCommute` | chipr-lib/src/lib.rs:126-130 | updates to two different slots commute |
| `DisplayGrid.Display.New` | chipr-lib/src/lib.rs:95-99 | 32 rows of 64 pixels, every pixel Black |
| `Decoder.Build` | chipr-lib/src/lib.rs:195-205 | the word's high byte is `high` and its low byte is `low`; the first two nibbles recombine to `high` and the last two to `low`, each below 16 |
| `Decoder.RawAsWritten` | chipr-lib/src/lib.rs:197 | the word as the code computes it never exceeds one byte, and equals `high + low` modulo 256 |
| `Decoder.RawAsWrittenLosesHighByte` | chipr-lib/src/lib.rs:197 | whenever `high` is non-zero, the as-written word differs from the big-endian word |
| `Decoder.JumpTargetAsWritten` | chipr-lib/src/lib.rs:195-209 | for the bytes 0x12 0x24 the as-written address is 0x036, the intended one 0x224 |
| `Decoder.GetNnn` | chipr-lib/src/lib.rs:207-209 | the address is below 0x1000 and agrees with the word in its low 12 bits |
| `Decoder.NnnOfBuild` | chipr-lib/src/lib.rs:195-209 | the address of `build(high, low)` is `(high & 0xF) * 256 + low` |
| `Decoder.Decode` | chipr-lib/src/lib.rs:217-234 | never yields `Operation0x00E0` or `Operation0x0NNN`; `Unsupported0x0NNN` exactly for failing words of family 0; `UnknownInstruction` carries the opcode's word |
| `Decoder.DecodeMatchesWord` | chipr-lib/src/lib.rs:216-234 | matching the nibbles of two bytes equals the reference decoder applied to their big-endian word |
| `Decoder.AddressFamilies` | chipr-lib/src/lib.rs:222-228 | first nibble 1, 2, 3 or 4 gives `Operation0x1NNN`, `0x2NNN`, `0x3NNN` or `0x4NNN` carrying `(high & 0xF) * 256 + low` |
| `Decoder.RegisterSkipFamily` | chipr-lib/src/lib.rs:230-233 | first nibble 5 gives `Operation0x5XY0(second nibble, third nibble)` when the last nibble is 0, otherwise `UnknownInstruction` with the whole word |
| `Decoder.NativeFamily` | chipr-lib/src/lib.rs:219-232 | first nibble 0 gives `Operation0x00EE` for the bytes 00E0 and 00EE and `Unsupported0x0NNN` for every other word |
| `Decoder.ClearScreenDecodesAsReturn` | chipr-lib/src/lib.rs:219-220 | the bytes 00E0 decode to `Operation0x00EE`, the same result as 00EE |
| `Decoder.UnimplementedFamilies` | chipr-lib/src/lib.rs:233 | first nibble 6 to F gives `UnknownInstruction` carrying the full 16-bit word |
| `Decoder.DecodeSucceedsIff` | chipr-lib/src/lib.rs:217-234 | decoding succeeds if and only if the first nibble is 1 to 4, or it is 5 with last nibble 0, or the bytes are 00E0 or 00EE |
| `Decoder.DecodeEncode` | chipr-lib/src/lib.rs:217-234 | every operation decoding can return, once encoded as two bytes, decodes back to itself |
| `Decoder.EncodeDecode` | chipr-lib/src/lib.rs:217-234 | every successfully decoded byte pair other than 00E0 encodes back to the same pair, so decoding is injective except at 00E0 |
| `Decoder.DecodeIntended` | chipr-lib/src/lib.rs:219 | the corrected decoder yields `Operation0x00E0` exactly for the word 00E0 and `Operation0x00EE` exactly for the word 00EE, so clear screen and return each come only from their own word |
| `Decoder.IntendedDecodeEncode` | chipr-lib/src/lib.rs:219-220 | with the corrected decoder, decoding undoes encoding for every decodable operation and for clear screen |
| `Decoder.IntendedEncodeDecode` | chipr-lib/src/lib.rs:219-220 | with the corrected decoder, encoding undoes every successful decode with no exception |
| `Machine.InitChip8Machine` | chipr-lib/src/lib.rs:139-161 | program counter 0x200 with a program and 0 without; memory holds the default font at 0x50, the program from 0x200, and zeros elsewhere; every pixel Black; all registers, index and timers 0; empty stack; no key; both quirks false |
| `Machine.Fetch` | chipr-lib/src/lib.rs:215-235 | for `pc + 1` inside memory, the result is the reference decoding of the big-endian word `memory[pc] * 256 + memory[pc + 1]` |
| `Machine.FetchReadsOnlyTwoBytes` | chipr-lib/src/lib.rs:215-216 | two machines with the same program counter and the same two bytes there fetch the same result |
| `Machine.FetchFirstInstruction` | chipr-lib/src/lib.rs:139-145 | a machine initialised with a program of two or more bytes first fetches the decoding of the program's first two bytes |
| `Machine.FetchWithoutProgram` | chipr-lib/src/lib.rs:141-145 | a machine initialised without a program first fetches `Err(Unsupported0x0NNN)`, since the program counter is 0 and memory there is zero |

## Left out

- `add` and its `it_works` test: template code, unrelated to the machine.
- `Chip8Machine::cycle` and the `Cycle` struct: the body is `todo!()`. No opcode effects (stack, timers, drawing, skips) are modelled, because the code defines none.
- `Key`'s sixteen variant names: a key is a number 0..15.
- The pressed key is an `Option<Key>`, as in the code, not a set of keys.
- `Configuration`: only its initial values are modelled, since nothing reads it.
- Integer widths: `usize` (the program counter) is an unbounded `nat`. Out-of-range array indexing panics in the code and is stated as a requires (`Fetch`, `Registers.Update`, `Overlay`, `Image`, `NewWithProgramAndFont`, and `InitChip8Machine`, which builds its memory through `new_with_program_and_font`).
- `Machine.Fetch`: "does not change the machine" holds by construction, since `Fetch` is a function on a value and has no separate contract for it.
- Rendering, audio, timer ticking, key input and randomness: none of them is in the code.

## Findings

| source | as written | input that shows it | evidently intended | confidence | as-written member | corrected member |
|---|---|---|---|---|---|---|
| chipr-lib/src/lib.rs:197 | `(high << 8) + low` is evaluated on `u8`, so the shift is by the full width. With overflow checks off, the shift is masked to 0 and the sum wraps: the word is `(high + low) mod 256` | bytes 0x12 0x24: word 0x36, so `get_nnn` gives 0x036 | the big-endian word 0x1224, address 0x224 | not executed; medium (rustc may refuse the over-wide shift at compile time, and a debug build panics instead) | `Decoder.RawAsWritten`, `Decoder.JumpTargetAsWritten` | `Decoder.Build`, `Decoder.NnnOfBuild` |
| chipr-lib/src/lib.rs:219 | the pattern (0, 0, 0xE, 0) returns `Operation0x00EE` | bytes 0x00 0xE0 | `Operation0x00E0` (clear screen) | not executed; high | `Decoder.Decode`, `Decoder.ClearScreenDecodesAsReturn` | `Decoder.DecodeIntended`, `Decoder.IntendedDecodeEncode`, `Decoder.IntendedEncodeDecode` |

The rest of the model uses the corrected word of `Build`. `Machine.Fetch`
reproduces the code's choice of variant, including `Operation0x00EE` for
00E0. The addresses it carries and the word in `UnknownInstruction` come from
the corrected big-endian word, not from the word the code computes. For the
bytes 0x12 0x24, `Fetch` gives `Operation0x1NNN(0x224)`, where the code as
written gives 0x036 (`Decoder.JumpTargetAsWritten`). `DecodeIntended` is the
decoder an execution step should use.
