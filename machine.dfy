/**
 * The CHIP-8 machine state, its construction, and instruction fetch.
 */
module Machine {
  import opened Bytes
  import opened Wrappers
  import opened MemorySpace
  import opened RegisterBank
  import opened DisplayGrid
  import opened Decoder

  /** A key of the hexadecimal keypad, 0..F. */
  type Key = k: int | 0 <= k < 0x10

  /** The two quirk toggles; nothing in the modelled code consults them. */
  datatype Configuration = Configuration(shiftOperationsSetsRyIntoRx: bool, bnnnIsBxnn: bool)

  datatype Chip8Machine = Chip8Machine(
    memory: Memory,
    display: Display,
    programCounter: nat,
    indexRegister: Word,
    stack: seq<Word>,
    delayTimer: Byte,
    soundTimer: Byte,
    registers: Registers,
    currentKeyPressed: Option<Key>,
    configuration: Configuration)
  {
    /** The fixed sizes of the Rust arrays: 4096 bytes, 16 registers, 32 x 64 pixels. */
    predicate Valid()
    {
      memory.Valid() && registers.Valid() && display.Valid()
    }
  }

  /**
   * `init_chip8machine`: memory holds the default font and the program (if
   * any); the program counter is 0x200 with a program and 0 without one;
   * everything else is cleared.
   */
  function InitChip8Machine(program: Option<seq<Byte>>): (m: Chip8Machine)
    requires ProgramFits(program)
    ensures m.Valid()
    ensures m.programCounter == if program.Some? then PROGRAM_START else 0
    ensures HoldsImage(m.memory.raw, program, Some(DEFAULT_FONT))
    ensures forall row, column | 0 <= row < ROWS && 0 <= column < COLUMNS :: m.display.pixels[row][column] == Black
    ensures forall i | 0 <= i < REGISTER_COUNT :: m.registers.data[i] == 0
    ensures m.indexRegister == 0 && m.stack == [] && m.delayTimer == 0 && m.soundTimer == 0
    ensures m.currentKeyPressed == None
    ensures !m.configuration.shiftOperationsSetsRyIntoRx && !m.configuration.bnnnIsBxnn
  {
    Chip8Machine(
      memory := Memory(Image(program, Some(DEFAULT_FONT))),
      display := Display.New(),
      programCounter := if program.Some? then PROGRAM_START else 0,
      indexRegister := 0,
      stack := [],
      delayTimer := 0,
      soundTimer := 0,
      registers := Registers.New(),
      currentKeyPressed := None,
      configuration := Configuration(shiftOperationsSetsRyIntoRx := false, bnnnIsBxnn := false))
  }

  /**
   * `Chip8Machine::fetch`: build an opcode from the bytes at the program
   * counter and the one after it, and decode it. It reads the machine and
   * changes nothing (`&self`). Indexing past the memory panics, hence the
   * requires. The result is that of the reference decoder on the big-endian
   * word at the program counter.
   */
  function Fetch(m: Chip8Machine): (r: Result<Operation, EmulationError>)
    requires m.programCounter + 1 < |m.memory.raw|
    ensures r == DecodeWord(m.memory.raw[m.programCounter] as int * 0x100 + m.memory.raw[m.programCounter + 1])
  {
    var high, low := m.memory.raw[m.programCounter], m.memory.raw[m.programCounter + 1];
    DecodeMatchesWord(high, low);
    Decode(Build(high, low))
  }

  /** Fetch depends on the program counter and the two bytes it reads, and on nothing else. */
  lemma FetchReadsOnlyTwoBytes(m1: Chip8Machine, m2: Chip8Machine)
    requires m1.programCounter == m2.programCounter
    requires m1.programCounter + 1 < |m1.memory.raw| && m2.programCounter + 1 < |m2.memory.raw|
    requires m1.memory.raw[m1.programCounter] == m2.memory.raw[m2.programCounter]
    requires m1.memory.raw[m1.programCounter + 1] == m2.memory.raw[m2.programCounter + 1]
    ensures Fetch(m1) == Fetch(m2)
  {
  }

  /** A freshly initialised machine with a program fetches the program's first two bytes. */
  lemma FetchFirstInstruction(program: seq<Byte>)
    requires 2 <= |program| <= MEMORY_SIZE - PROGRAM_START
    ensures Fetch(InitChip8Machine(Some(program))) == Decode(Build(program[0], program[1]))
  {
    var m := InitChip8Machine(Some(program));
    assert m.memory.raw[PROGRAM_START] == program[0];
    assert m.memory.raw[PROGRAM_START + 1] == program[1];
    DecodeMatchesWord(program[0], program[1]);
  }

  /**
   * Without a program the program counter is 0, where memory holds the bytes
   * 00 00: the first fetch is an unsupported native call.
   */
  lemma FetchWithoutProgram()
    ensures Fetch(InitChip8Machine(None)) == Err(Unsupported0x0NNN)
  {
    var m := InitChip8Machine(None);
    assert m.memory.raw[0] == 0 && m.memory.raw[1] == 0;
  }
}
