/**
 * The 4 KiB address space and how the initial image is laid out: the
 * program at 0x200, then the font at 0x50.
 */
module MemorySpace {
  import opened Bytes
  import opened Wrappers

  const MEMORY_SIZE: nat := 4096
  const PROGRAM_START: nat := 0x200
  const FONT_START: nat := 0x50
  /** A font is `[u8; 80]`: sixteen glyphs of five rows each. */
  const FONT_SIZE: nat := 80

  /** The standard hexadecimal glyphs 0..F, five bytes per glyph. */
  const DEFAULT_FONT: seq<Byte> := [
    0xF0, 0x90, 0x90, 0x90, 0xF0, // 0
    0x20, 0x60, 0x20, 0x20, 0x70, // 1
    0xF0, 0x10, 0xF0, 0x80, 0xF0, // 2
    0xF0, 0x10, 0xF0, 0x10, 0xF0, // 3
    0x90, 0x90, 0xF0, 0x10, 0x10, // 4
    0xF0, 0x80, 0xF0, 0x10, 0xF0, // 5
    0xF0, 0x80, 0xF0, 0x90, 0xF0, // 6
    0xF0, 0x10, 0x20, 0x40, 0x40, // 7
    0xF0, 0x90, 0xF0, 0x90, 0xF0, // 8
    0xF0, 0x90, 0xF0, 0x10, 0xF0, // 9
    0xF0, 0x90, 0xF0, 0x90, 0x90, // A
    0xE0, 0x90, 0xE0, 0x90, 0xE0, // B
    0xF0, 0x80, 0x80, 0x80, 0xF0, // C
    0xE0, 0x90, 0x90, 0x90, 0xE0, // D
    0xF0, 0x80, 0xF0, 0x80, 0xF0, // E
    0xF0, 0x80, 0xF0, 0x80, 0x80  // F
  ]

  /** The Rust struct holds `raw: [u8; MEMORY_SIZE]`. */
  datatype Memory = Memory(raw: seq<Byte>)
  {
    predicate Valid()
    {
      |raw| == MEMORY_SIZE
    }
  }

  /** `Memory::new`: the whole space zero-filled. */
  function New(): (m: Memory)
    ensures m.Valid()
    ensures forall a | 0 <= a < MEMORY_SIZE :: m.raw[a] == 0
  {
    Memory(seq(MEMORY_SIZE, _ => 0))
  }

  /**
   * What the copy loops achieve: `bytes[i]` written at `start + i` for every
   * `i`, every other cell kept. Writing past the end of the array panics in
   * the source, hence the requires.
   */
  function Overlay(base: seq<Byte>, start: nat, bytes: seq<Byte>): (r: seq<Byte>)
    requires start + |bytes| <= |base|
    ensures |r| == |base|
    ensures forall a | 0 <= a < |r| ::
      r[a] == if start <= a < start + |bytes| then bytes[a - start] else base[a]
  {
    base[..start] + bytes + base[start + |bytes|..]
  }

  /** A program fits when it does not run past the last address. */
  predicate ProgramFits(program: Option<seq<Byte>>)
  {
    program.Some? ==> |program.value| <= MEMORY_SIZE - PROGRAM_START
  }

  /** A supplied font is always exactly 80 bytes (`Option<[u8; 80]>`). */
  predicate FontShaped(font: Option<seq<Byte>>)
  {
    font.Some? ==> |font.value| == FONT_SIZE
  }

  /**
   * `raw` is the image of `program` and `font`: 4096 cells, the font (if
   * any) at FONT_START, the program (if any) at PROGRAM_START, and zero in
   * every other cell.
   */
  predicate HoldsImage(raw: seq<Byte>, program: Option<seq<Byte>>, font: Option<seq<Byte>>)
    requires ProgramFits(program) && FontShaped(font)
  {
    |raw| == MEMORY_SIZE &&
    forall a | 0 <= a < MEMORY_SIZE ::
      raw[a] ==
        if font.Some? && FONT_START <= a < FONT_START + FONT_SIZE then font.value[a - FONT_START]
        else if program.Some? && PROGRAM_START <= a < PROGRAM_START + |program.value| then program.value[a - PROGRAM_START]
        else 0
  }

  /** The image determines every cell, so there is exactly one memory holding it. */
  lemma ImageIsUnique(raw1: seq<Byte>, raw2: seq<Byte>, program: Option<seq<Byte>>, font: Option<seq<Byte>>)
    requires ProgramFits(program) && FontShaped(font)
    requires HoldsImage(raw1, program, font) && HoldsImage(raw2, program, font)
    ensures raw1 == raw2
  {
  }

  /**
   * The image `new_with_program_and_font` builds, as a value: start from a
   * zeroed space, lay the program (if any) at PROGRAM_START, then the font
   * (if any) at FONT_START.
   */
  function Image(program: Option<seq<Byte>>, font: Option<seq<Byte>>): (raw: seq<Byte>)
    requires ProgramFits(program) && FontShaped(font)
    ensures HoldsImage(raw, program, font)
  {
    var base := match program
      case None => New().raw
      case Some(p) => Overlay(New().raw, PROGRAM_START, p);
    match font
    case None => base
    case Some(f) => Overlay(base, FONT_START, f)
  }

  /** With neither a program nor a font the image is the zeroed space of `Memory::new`. */
  lemma EmptyImageIsNew()
    ensures Image(None, None) == New().raw
  {
  }

  /**
   * `Memory::new_with_program_and_font`: fill a fresh array with zeros, copy
   * the program byte by byte from 0x200, then the font byte by byte from 0x50.
   * By `ImageIsUnique` the result is the memory `Image` describes.
   */
  method NewWithProgramAndFont(program: Option<seq<Byte>>, font: Option<seq<Byte>>) returns (m: Memory)
    requires ProgramFits(program) && FontShaped(font)
    ensures m.Valid()
    ensures HoldsImage(m.raw, program, font)
  {
    var raw := new Byte[MEMORY_SIZE](_ => 0);
    // An absent program or font copies nothing.
    var p := if program.Some? then program.value else [];
    var f := if font.Some? then font.value else [];
    var i := 0;
    while i < |p|
      invariant 0 <= i <= |p|
      invariant forall a | 0 <= a < MEMORY_SIZE :: raw[a] == if PROGRAM_START <= a < PROGRAM_START + i then p[a - PROGRAM_START] else 0
    {
      raw[i + PROGRAM_START] := p[i];
      i := i + 1;
    }
    ghost var base := raw[..];
    i := 0;
    while i < |f|
      invariant 0 <= i <= |f|
      invariant forall a | 0 <= a < MEMORY_SIZE :: raw[a] == if FONT_START <= a < FONT_START + i then f[a - FONT_START] else base[a]
    {
      raw[i + FONT_START] := f[i];
      i := i + 1;
    }
    m := Memory(raw[..]);
  }
}
