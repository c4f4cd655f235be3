/**
  The byte-code of the regex virtual machine: a program is an address-indexed
  sequence of instructions whose jump targets are addresses in that sequence.
 */
module Engine {

  datatype Instruction =
    | Char(c: char)
    | Match
    | Jump(addr: nat)
    | Split(addr1: nat, addr2: nat)

  /** Every target the instruction may transfer control to lies in [lo, hi]. */
  predicate TargetsBetween(inst: Instruction, lo: int, hi: int)
  {
    match inst
    case Jump(t) => lo <= t <= hi
    case Split(t1, t2) => lo <= t1 <= hi && lo <= t2 <= hi
    case _ => true
  }

  /**
    The program's invariant: it is not empty, its last instruction is `Match`
    and every jump or split target is a valid address of the program.
   */
  predicate WellFormed(prog: seq<Instruction>)
  {
    && |prog| > 0
    && prog[|prog| - 1] == Match
    && forall i | 0 <= i < |prog| :: TargetsBetween(prog[i], 0, |prog| - 1)
  }
}
