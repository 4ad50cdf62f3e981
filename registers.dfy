/** The bank of sixteen general-purpose 8-bit registers V0..VF. */
module RegisterBank {
  import opened Bytes

  const REGISTER_COUNT: nat := 16

  datatype Registers = Registers(data: seq<Byte>)
  {
    /** The Rust type is `[u8; 16]`: exactly sixteen slots. */
    predicate Valid()
    {
      |data| == REGISTER_COUNT
    }

    /** `Registers::new`: every register holds zero. */
    static function New(): (r: Registers)
      ensures r.Valid()
      ensures forall i | 0 <= i < REGISTER_COUNT :: r.data[i] == 0
    {
      Registers(seq(REGISTER_COUNT, _ => 0))
    }

    /**
     * `Registers::update`: a copy of the bank in which slot `index` holds
     * `newValue`; the receiver itself is a value and is left as it was.
     * Indexing `[u8; 16]` past its end panics, hence `index < 16`.
     */
    function Update(index: nat, newValue: Byte): (r: Registers)
      requires Valid() && index < REGISTER_COUNT
      ensures r.Valid()
      ensures r.data[index] == newValue
      ensures forall i | 0 <= i < REGISTER_COUNT && i != index :: r.data[i] == data[i]
    {
      Registers(data[index := newValue])
    }
  }

  /** Writing a slot twice keeps only the second value. */
  lemma UpdateLastWriteWins(regs: Registers, index: nat, first: Byte, second: Byte)
    requires regs.Valid() && index < REGISTER_COUNT
    ensures regs.Update(index, first).Update(index, second) == regs.Update(index, second)
  {
  }

  /** Writing back the value a slot already holds gives the same bank. */
  lemma UpdateWithCurrentValue(regs: Registers, index: nat)
    requires regs.Valid() && index < REGISTER_COUNT
    ensures regs.Update(index, regs.data[index]) == regs
  {
  }

  /** Updates of two different slots do not interfere: their order is irrelevant. */
  lemma UpdatesCommute(regs: Registers, i: nat, a: Byte, j: nat, b: Byte)
    requires regs.Valid() && i < REGISTER_COUNT && j < REGISTER_COUNT && i != j
    ensures regs.Update(i, a).Update(j, b) == regs.Update(j, b).Update(i, a)
  {
  }
}
