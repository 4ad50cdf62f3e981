/**
 * Opcode construction and instruction decoding: two bytes become an
 * `OpCode` (the 16-bit word and its four nibbles), and the nibbles are
 * matched against the instruction families the interpreter knows.
 */
module Decoder {
  import opened Bytes
  import opened Wrappers

  /** The instruction families decoding can name. */
  datatype Operation =
    | Operation0x00E0
    | Operation0x00EE
    | Operation0x0NNN
    | Operation0x1NNN(nnn: Word)
    | Operation0x2NNN(nnn: Word)
    | Operation0x3NNN(nnn: Word)
    | Operation0x4NNN(nnn: Word)
    | Operation0x5XY0(x: Byte, y: Byte)

  datatype EmulationError =
    | UnknownInstruction(raw: Word)
    | Unsupported0x0NNN

  /** The big-endian instruction word and its nibbles, most significant first. */
  datatype OpCode = OpCode(raw: Word, destructured: (Nibble, Nibble, Nibble, Nibble))

  /**
   * `OpCode::build`. The nibbles are `high >> 4`, `high & 0xF`, `low >> 4`
   * and `low & 0xF`. The word is `high * 256 + low`, the big-endian word the
   * source evidently intends; what chipr-lib/src/lib.rs:197 computes instead is
   * `RawAsWritten` below.
   */
  function Build(high: Byte, low: Byte): (op: OpCode)
    ensures op.raw / 0x100 == high && op.raw % 0x100 == low
    ensures op.destructured.0 * 0x10 + op.destructured.1 == high
    ensures op.destructured.2 * 0x10 + op.destructured.3 == low
  {
    OpCode(high * 0x100 + low, (high / 0x10, high % 0x10, low / 0x10, low % 0x10))
  }

  /**
   * chipr-lib/src/lib.rs:197 as written: `(high << 8) + low` is evaluated on `u8` before
   * the cast to `u16`. A shift by the full width of `u8` is an overflow:
   * rustc rejects it where it can see it, and with overflow checks off the
   * shift amount is masked to 0 and the sum wraps. This models the latter.
   * The high byte never reaches bits 8..15 of the word.
   */
  function RawAsWritten(high: Byte, low: Byte): (raw: Word)
    ensures raw < 0x100
    ensures (raw - high - low) % 0x100 == 0
  {
    (high + low) % 0x100
  }

  /** The word as written differs from the big-endian word whenever the high byte is not zero. */
  lemma RawAsWrittenLosesHighByte(high: Byte, low: Byte)
    requires high != 0
    ensures RawAsWritten(high, low) != Build(high, low).raw
  {
  }

  /**
   * The bytes 0x12 0x24 (jump to 0x224): as written the word is 0x36, so the
   * address `get_nnn` would extract is 0x036 rather than 0x224.
   */
  lemma JumpTargetAsWritten()
    ensures RawAsWritten(0x12, 0x24) % 0x1000 == 0x036
    ensures GetNnn(Build(0x12, 0x24)) == 0x224
  {
  }

  /** `OpCode::get_nnn`: the low 12 bits of the word (`raw & 0x0FFF`). */
  function GetNnn(op: OpCode): (nnn: Word)
    ensures nnn < 0x1000
    ensures (op.raw - nnn) % 0x1000 == 0
  {
    op.raw % 0x1000
  }

  /** The 12-bit address is the low nibble of the high byte followed by the low byte. */
  lemma NnnOfBuild(high: Byte, low: Byte)
    ensures GetNnn(Build(high, low)) == (high % 0x10) * 0x100 + low
  {
    WordFields(high, low);
  }

  /**
   * The `match` of `Chip8Machine::fetch`, tried top to bottom. The pattern
   * (0, 0, 0xE, 0) — the bytes 00E0, clear screen — yields
   * `Operation0x00EE`, as chipr-lib/src/lib.rs:219 is written; `DecodeIntended` is the
   * evidently intended variant.
   */
  function Decode(op: OpCode): (r: Result<Operation, EmulationError>)
    ensures r.Ok? ==> r.value != Operation0x00E0 && r.value != Operation0x0NNN
    ensures r == Err(Unsupported0x0NNN) <==> op.destructured.0 == 0 && r.Err?
    ensures r.Err? && r.error.UnknownInstruction? ==> r.error.raw == op.raw
  {
    match op.destructured
    case (0, 0, 0xE, 0) => Ok(Operation0x00EE)
    case (0, 0, 0xE, 0xE) => Ok(Operation0x00EE)
    case (1, _, _, _) => Ok(Operation0x1NNN(GetNnn(op)))
    case (2, _, _, _) => Ok(Operation0x2NNN(GetNnn(op)))
    case (3, _, _, _) => Ok(Operation0x3NNN(GetNnn(op)))
    case (4, _, _, _) => Ok(Operation0x4NNN(GetNnn(op)))
    case (5, x, y, 0) => Ok(Operation0x5XY0(x, y))
    case (0, _, _, _) => Err(Unsupported0x0NNN)
    case _ => Err(UnknownInstruction(op.raw))
  }

  /**
   * A reference decoder stated on the 16-bit word itself, with the derived
   * fields of the CHIP-8 encoding: the family `w >> 12`, the address
   * `w & 0xFFF`, `x = (w >> 8) & 0xF`, `y = (w >> 4) & 0xF`, `n = w & 0xF`.
   * It keeps the source's treatment of 00E0.
   */
  function DecodeWord(w: Word): Result<Operation, EmulationError>
  {
    var family, nnn := w / 0x1000, w % 0x1000;
    var x, y, n := w / 0x100 % 0x10, w / 0x10 % 0x10, w % 0x10;
    if w == 0x00E0 || w == 0x00EE then Ok(Operation0x00EE)
    else if family == 0 then Err(Unsupported0x0NNN)
    else if family == 1 then Ok(Operation0x1NNN(nnn))
    else if family == 2 then Ok(Operation0x2NNN(nnn))
    else if family == 3 then Ok(Operation0x3NNN(nnn))
    else if family == 4 then Ok(Operation0x4NNN(nnn))
    else if family == 5 && n == 0 then Ok(Operation0x5XY0(x, y))
    else Err(UnknownInstruction(w))
  }

  /** The fields of the word `high * 256 + low`, in terms of the two bytes. */
  lemma WordFields(high: Byte, low: Byte)
    ensures (high * 0x100 + low) / 0x1000 == high / 0x10
    ensures (high * 0x100 + low) / 0x100 % 0x10 == high % 0x10
    ensures (high * 0x100 + low) / 0x10 % 0x10 == low / 0x10
    ensures (high * 0x100 + low) % 0x10 == low % 0x10
    ensures (high * 0x100 + low) % 0x1000 == (high % 0x10) * 0x100 + low
  {
    var w := high * 0x100 + low;
    var hq, hr := high / 0x10, high % 0x10;
    var lq, lr := low / 0x10, low % 0x10;
    assert high == hq * 0x10 + hr && low == lq * 0x10 + lr;
    assert w == hq * 0x1000 + (hr * 0x100 + low) && 0 <= hr * 0x100 + low < 0x1000;
    assert w == (hq * 0x10 + hr) * 0x100 + low && 0 <= low < 0x100;
    assert w == (high * 0x10 + lq) * 0x10 + lr && 0 <= lr < 0x10;
  }

  /** Decoding the nibbles of two bytes agrees with decoding their big-endian word. */
  lemma DecodeMatchesWord(high: Byte, low: Byte)
    ensures Decode(Build(high, low)) == DecodeWord(high * 0x100 + low)
  {
    WordFields(high, low);
  }

  /** The first nibble of an instruction word: its family. */
  function Family(high: Byte): Nibble
  {
    high / 0x10
  }

  /**
   * First nibble 1, 2, 3 or 4: the jump, call and two skip families, each
   * carrying the low 12 bits of the word.
   */
  lemma AddressFamilies(high: Byte, low: Byte)
    requires 1 <= Family(high) <= 4
    ensures var nnn := (high % 0x10) * 0x100 + low;
      Decode(Build(high, low)) ==
        match Family(high)
        case 1 => Ok(Operation0x1NNN(nnn))
        case 2 => Ok(Operation0x2NNN(nnn))
        case 3 => Ok(Operation0x3NNN(nnn))
        case _ => Ok(Operation0x4NNN(nnn))
  {
    NnnOfBuild(high, low);
  }

  /**
   * First nibble 5: with last nibble 0 the register pair (second and third
   * nibble); otherwise an unknown instruction carrying the whole word.
   */
  lemma RegisterSkipFamily(high: Byte, low: Byte)
    requires Family(high) == 5
    ensures Decode(Build(high, low)) ==
      if low % 0x10 == 0 then Ok(Operation0x5XY0(high % 0x10, low / 0x10))
      else Err(UnknownInstruction(high * 0x100 + low))
  {
  }

  /**
   * First nibble 0: the bytes 00E0 and 00EE both decode to
   * `Operation0x00EE`; every other word of the family is an unsupported
   * native call.
   */
  lemma NativeFamily(high: Byte, low: Byte)
    requires Family(high) == 0
    ensures Decode(Build(high, low)) ==
      if high == 0x00 && (low == 0xE0 || low == 0xEE) then Ok(Operation0x00EE)
      else Err(Unsupported0x0NNN)
  {
  }

  /** Clear screen (00E0) decodes exactly as return (00EE) does. */
  lemma ClearScreenDecodesAsReturn()
    ensures Decode(Build(0x00, 0xE0)) == Ok(Operation0x00EE)
    ensures Decode(Build(0x00, 0xE0)) == Decode(Build(0x00, 0xEE))
  {
  }

  /** First nibble 6 to F: no pattern matches; the error carries the full word. */
  lemma UnimplementedFamilies(high: Byte, low: Byte)
    requires Family(high) >= 6
    ensures Decode(Build(high, low)) == Err(UnknownInstruction(high * 0x100 + low))
  {
  }

  /**
   * Which byte pairs decode successfully, both ways: the families 1..4, 5
   * with last nibble 0, and the two words 00E0 and 00EE.
   */
  lemma DecodeSucceedsIff(high: Byte, low: Byte)
    ensures Decode(Build(high, low)).Ok? <==>
      (1 <= Family(high) <= 4)
      || (Family(high) == 5 && low % 0x10 == 0)
      || (high == 0x00 && (low == 0xE0 || low == 0xEE))
  {
  }

  /**
   * The operations decoding can return, with their fields in range: an
   * address below 0x1000, register numbers below 16. `Operation0x00E0` and
   * `Operation0x0NNN` are not among them.
   */
  predicate Decodable(op: Operation)
  {
    match op
    case Operation0x00E0 => false
    case Operation0x00EE => true
    case Operation0x0NNN => false
    case Operation0x1NNN(nnn) => nnn < 0x1000
    case Operation0x2NNN(nnn) => nnn < 0x1000
    case Operation0x3NNN(nnn) => nnn < 0x1000
    case Operation0x4NNN(nnn) => nnn < 0x1000
    case Operation0x5XY0(x, y) => x < 0x10 && y < 0x10
  }

  /** The two bytes of an instruction word, `nnn` split into its high nibble and low byte. */
  function EncodeAddress(family: Nibble, nnn: Word): (Byte, Byte)
    requires nnn < 0x1000
  {
    (family * 0x10 + nnn / 0x100, nnn % 0x100)
  }

  /**
   * The CHIP-8 encoding of an operation, high byte first: the inverse that
   * decoding is checked against. Clear screen is the word 00E0.
   */
  function Encode(op: Operation): (Byte, Byte)
    requires Decodable(op) || op == Operation0x00E0
  {
    match op
    case Operation0x00E0 => (0x00, 0xE0)
    case Operation0x00EE => (0x00, 0xEE)
    case Operation0x1NNN(nnn) => EncodeAddress(1, nnn)
    case Operation0x2NNN(nnn) => EncodeAddress(2, nnn)
    case Operation0x3NNN(nnn) => EncodeAddress(3, nnn)
    case Operation0x4NNN(nnn) => EncodeAddress(4, nnn)
    case Operation0x5XY0(x, y) => (0x50 + x, y * 0x10)
  }

  /** An address family decodes back the address it was encoded with. */
  lemma DecodeEncodeAddress(family: Nibble, nnn: Word)
    requires 1 <= family <= 4 && nnn < 0x1000
    ensures var (high, low) := EncodeAddress(family, nnn);
      Family(high) == family && (high % 0x10) * 0x100 + low == nnn
  {
  }

  /** Decoding undoes encoding for every operation decoding can return. */
  lemma DecodeEncode(op: Operation)
    requires Decodable(op)
    ensures Decode(Build(Encode(op).0, Encode(op).1)) == Ok(op)
  {
    var (high, low) := Encode(op);
    match op
    case Operation0x00EE =>
    case Operation0x5XY0(x, y) =>
    case Operation0x1NNN(nnn) =>
      DecodeEncodeAddress(1, nnn);
      AddressFamilies(high, low);
    case Operation0x2NNN(nnn) =>
      DecodeEncodeAddress(2, nnn);
      AddressFamilies(high, low);
    case Operation0x3NNN(nnn) =>
      DecodeEncodeAddress(3, nnn);
      AddressFamilies(high, low);
    case Operation0x4NNN(nnn) =>
      DecodeEncodeAddress(4, nnn);
      AddressFamilies(high, low);
  }

  /**
   * Encoding undoes successful decoding, except for the bytes 00E0, which
   * decode to the operation of 00EE: apart from that one word, decoding is
   * injective on the words it accepts.
   */
  lemma EncodeDecode(high: Byte, low: Byte)
    requires Decode(Build(high, low)).Ok?
    requires !(high == 0x00 && low == 0xE0)
    ensures Decodable(Decode(Build(high, low)).value)
    ensures Encode(Decode(Build(high, low)).value) == (high, low)
  {
    if 1 <= Family(high) <= 4 {
      AddressFamilies(high, low);
    }
  }

  /**
   * The decoder chipr-lib/src/lib.rs:219 evidently intends: the pattern (0, 0, 0xE, 0)
   * yields `Operation0x00E0`; every other word decodes as in `Decode`.
   */
  function DecodeIntended(op: OpCode): (r: Result<Operation, EmulationError>)
    ensures r == Ok(Operation0x00E0) <==> op.destructured == (0, 0, 0xE, 0)
    ensures r == Ok(Operation0x00EE) <==> op.destructured == (0, 0, 0xE, 0xE)
  {
    if op.destructured == (0, 0, 0xE, 0) then Ok(Operation0x00E0) else Decode(op)
  }

  /** With the intended decoder, decoding undoes encoding for clear screen too. */
  lemma IntendedDecodeEncode(op: Operation)
    requires Decodable(op) || op == Operation0x00E0
    ensures DecodeIntended(Build(Encode(op).0, Encode(op).1)) == Ok(op)
  {
    if op != Operation0x00E0 {
      DecodeEncode(op);
    }
  }

  /**
   * With the intended decoder, encoding undoes every successful decode with
   * no exception: decoding is injective on the words it accepts.
   */
  lemma IntendedEncodeDecode(high: Byte, low: Byte)
    requires DecodeIntended(Build(high, low)).Ok?
    ensures var decoded := DecodeIntended(Build(high, low)).value;
      (Decodable(decoded) || decoded == Operation0x00E0) && Encode(decoded) == (high, low)
  {
    if !(high == 0x00 && low == 0xE0) {
      EncodeDecode(high, low);
    }
  }
}
