/**
 * The first Intcode interpreter (day 2): a tape of integers executed from
 * position 0 with three opcodes, ADD (1), MUL (2) and HALT (99). Every operand
 * is an address (position mode), and the program counter moves by 4 after each
 * arithmetic instruction. Addresses follow Python's list subscript rules:
 * a negative address counts from the end of the tape and an address outside
 * the tape raises IndexError.
 */
module Intcode {
  import opened Common

  const ADD: int := 1
  const MUL: int := 2
  const HALT: int := 99

  datatype BinOp = Add | Mul

  function Apply(op: BinOp, a: int, b: int): int
  {
    match op
    case Add => a + b
    case Mul => a * b
  }

  /** `tape[i]` as Python reads it. */
  function Load(tape: seq<int>, i: int): (r: Option<int>)
    ensures r.Some? <==> -(|tape| as int) <= i < |tape|
    ensures 0 <= i < |tape| ==> r == Some(tape[i])
    ensures i < 0 && r.Some? ==> r == Some(tape[i + |tape|])
  {
    match PyIndex(i, |tape|)
    case None => None
    case Some(k) => Some(tape[k])
  }

  /**
   * One ADD or MUL instruction at `pos`: the words at pos+1 and pos+2 address
   * the operands, the word at pos+3 addresses the destination. Both operands
   * are read before the single write.
   */
  function OpBin(tape: seq<int>, pos: nat, op: BinOp): (r: Result<seq<int>>)
    ensures r.Success? ==> |r.value| == |tape|
    ensures r.Failure? ==> r.error == IndexError
  {
    match (Load(tape, pos + 3), Load(tape, pos + 1), Load(tape, pos + 2))
    case (Some(dest), Some(src1), Some(src2)) =>
      (match (Load(tape, src1), Load(tape, src2), PyIndex(dest, |tape|))
       case (Some(a), Some(b), Some(d)) => Success(tape[d := Apply(op, a, b)])
       case _ => Failure(IndexError))
    case _ => Failure(IndexError)
  }

  /** Every address word of the instruction at `pos` names a cell of the tape. */
  predicate WellAddressed(tape: seq<int>, pos: nat)
  {
    && pos + 3 < |tape|
    && 0 <= tape[pos + 1] < |tape|
    && 0 <= tape[pos + 2] < |tape|
    && 0 <= tape[pos + 3] < |tape|
  }

  /**
   * op_sum and op_mul: the destination cell receives the result of the
   * operation on the OLD operand cells (even when the destination is one of
   * them), and no other cell changes.
   */
  lemma OpBinFrame(tape: seq<int>, pos: nat, op: BinOp)
    requires WellAddressed(tape, pos)
    ensures OpBin(tape, pos, op).Success?
    ensures var t := OpBin(tape, pos, op).value;
      && |t| == |tape|
      && t[tape[pos + 3]] == Apply(op, tape[tape[pos + 1]], tape[tape[pos + 2]])
      && forall i :: 0 <= i < |tape| && i != tape[pos + 3] ==> t[i] == tape[i]
  {
  }

  /** The same instruction fails with IndexError when an address word points off the tape. */
  lemma OpBinOutOfRange(tape: seq<int>, pos: nat, op: BinOp)
    requires pos + 3 < |tape|
    requires tape[pos + 1] >= |tape| || tape[pos + 2] >= |tape| || tape[pos + 3] >= |tape|
    ensures OpBin(tape, pos, op) == Failure(IndexError)
  {
  }

  /** How a run of the interpreter ends. */
  datatype Exit =
    | Halted(tape: seq<int>, pc: nat)      // HALT (99) reached at pc
    | BadOpcode(tape: seq<int>, pc: nat)   // an unknown opcode at pc: `intcode` returns None
    | Crashed                              // IndexError

  /** The fetch-execute loop of `intcode`, from program counter `pc`. */
  function Run(tape: seq<int>, pc: nat): (e: Exit)
    ensures pc < |tape| && tape[pc] == HALT ==> e == Halted(tape, pc)
    ensures pc < |tape| && tape[pc] != ADD && tape[pc] != MUL && tape[pc] != HALT ==> e == BadOpcode(tape, pc)
    ensures pc >= |tape| ==> e == Crashed
    decreases |tape| - pc
  {
    if pc >= |tape| then Crashed
    else
      var opcode := tape[pc];
      if opcode == ADD || opcode == MUL then
        match OpBin(tape, pc, if opcode == ADD then Add else Mul)
        case Failure(_) => Crashed
        case Success(next) => Run(next, pc + 4)
      else if opcode == HALT then Halted(tape, pc)
      else BadOpcode(tape, pc)
  }

  /**
   * A run that stops does so on a tape of the original length, at an
   * instruction boundary (a multiple of 4 past the start) within the tape,
   * on HALT or on an opcode the interpreter does not know.
   */
  lemma {:induction false} RunStops(tape: seq<int>, pc: nat)
    ensures var e := Run(tape, pc);
      e.Halted? ==>
        && |e.tape| == |tape| && pc <= e.pc < |e.tape|
        && e.pc % 4 == pc % 4 && e.tape[e.pc] == HALT
    ensures var e := Run(tape, pc);
      e.BadOpcode? ==>
        && |e.tape| == |tape| && pc <= e.pc < |e.tape|
        && e.pc % 4 == pc % 4 && e.tape[e.pc] != ADD && e.tape[e.pc] != MUL && e.tape[e.pc] != HALT
    decreases |tape| - pc
  {
    if pc < |tape| && (tape[pc] == ADD || tape[pc] == MUL) {
      var op := if tape[pc] == ADD then Add else Mul;
      var step := OpBin(tape, pc, op);
      if step.Success? {
        var next := step.value;
        assert |next| == |tape| && (pc + 4) % 4 == pc % 4;
        assert Run(tape, pc) == Run(next, pc + 4);
        RunStops(next, pc + 4);
      }
    }
  }

  /** After a well-addressed ADD or MUL the run continues at pc + 4 on the updated tape. */
  lemma RunAdvances(tape: seq<int>, pc: nat)
    requires WellAddressed(tape, pc)
    requires tape[pc] == ADD || tape[pc] == MUL
    ensures var op := if tape[pc] == ADD then Add else Mul;
      Run(tape, pc) == Run(OpBin(tape, pc, op).value, pc + 4)
  {
    var op := if tape[pc] == ADD then Add else Mul;
    OpBinFrame(tape, pc, op);
  }

  /**
   * `intcode`: the value of cell 0 of the final tape when HALT is reached,
   * None for an unknown opcode, IndexError when an access leaves the tape.
   */
  function Intcode(tape: seq<int>): (r: Result<Option<int>>)
    ensures r.Failure? <==> Run(tape, 0) == Crashed
    ensures r == Success(None) <==> Run(tape, 0).BadOpcode?
    ensures r.Success? && r.value.Some? ==>
      var e := Run(tape, 0);
      e.Halted? && 0 < |e.tape| == |tape| && r.value.value == e.tape[0]
  {
    RunStops(tape, 0);
    match Run(tape, 0)
    case Halted(t, _) => Success(Some(t[0]))
    case BadOpcode(_, _) => Success(None)
    case Crashed => Failure(IndexError)
  }

  /** The sample programs of the test suite. */
  lemma SamplePrograms()
    ensures Run([1, 0, 0, 0, 99], 0) == Halted([2, 0, 0, 0, 99], 4)
    ensures Run([2, 3, 0, 3, 99], 0) == Halted([2, 3, 0, 6, 99], 4)
    ensures Run([2, 4, 4, 5, 99, 0], 0) == Halted([2, 4, 4, 5, 99, 9801], 4)
    ensures Run([1, 1, 1, 4, 99, 5, 6, 0, 99], 0) == Halted([30, 1, 1, 4, 2, 5, 6, 0, 99], 8)
  {
  }

  /** An opcode that is neither 1, 2 nor 99 makes `intcode` return None, keeping earlier effects. */
  lemma BadOpcodeKeepsEarlierEffects()
    ensures Run([1, 0, 0, 0, 7], 0) == BadOpcode([2, 0, 0, 0, 7], 4)
    ensures Intcode([1, 0, 0, 0, 7]) == Success(None)
  {
  }

  /** `operate`'s copy of the program, with noun at index 1 and verb at index 2. */
  function Patch(memory: seq<int>, noun: int, verb: int): (r: seq<int>)
    requires |memory| >= 3
    ensures |r| == |memory|
    ensures r[1] == noun && r[2] == verb
    ensures forall i :: 0 <= i < |memory| && i != 1 && i != 2 ==> r[i] == memory[i]
  {
    memory[1 := noun][2 := verb]
  }

  /** `operate`: run a patched copy; a program shorter than three cells cannot be patched. */
  function Operate(memory: seq<int>, noun: int, verb: int): (r: Result<Option<int>>)
    ensures |memory| < 3 ==> r == Failure(IndexError)
    ensures |memory| >= 3 ==> r == Intcode(Patch(memory, noun, verb))
  {
    if |memory| < 3 then Failure(IndexError) else Intcode(Patch(memory, noun, verb))
  }

  /** The pair (noun, verb) ran without error and did not produce the target. */
  predicate Misses(code: seq<int>, target: int, noun: int, verb: int)
  {
    var r := Operate(code, noun, verb);
    r.Success? && r.value != Some(target)
  }

  /** (n1, v1) comes before (n2, v2) in the order `product(range(100), repeat=2)` yields them. */
  predicate Before(n1: int, v1: int, n2: int, v2: int)
  {
    n1 < n2 || (n1 == n2 && v1 < v2)
  }

  predicate InSearchSpace(noun: int, verb: int)
  {
    0 <= noun < 100 && 0 <= verb < 100
  }

  /**
   * `find_result`: the first (noun, verb) in lexicographic order whose run
   * yields `target`; None when no pair does; the IndexError of the first
   * pair whose run fails, if one fails before a hit.
   */
  method FindResult(target: int, code: seq<int>) returns (r: Result<Option<(int, int)>>)
    ensures r.Success? && r.value.Some? ==>
      && InSearchSpace(r.value.value.0, r.value.value.1)
      && Operate(code, r.value.value.0, r.value.value.1) == Success(Some(target))
      && forall n, v :: InSearchSpace(n, v) && Before(n, v, r.value.value.0, r.value.value.1) ==>
           Misses(code, target, n, v)
    ensures r == Success(None) ==> forall n, v :: InSearchSpace(n, v) ==> Misses(code, target, n, v)
    ensures r.Failure? ==> exists n, v ::
      && InSearchSpace(n, v) && Operate(code, n, v) == Failure(r.error)
      && forall n', v' :: InSearchSpace(n', v') && Before(n', v', n, v) ==> Misses(code, target, n', v')
  {
    var noun := 0;
    while noun < 100
      invariant 0 <= noun <= 100
      invariant forall n, v :: InSearchSpace(n, v) && n < noun ==> Misses(code, target, n, v)
    {
      var verb := 0;
      while verb < 100
        invariant 0 <= verb <= 100
        invariant forall n, v :: InSearchSpace(n, v) && Before(n, v, noun, verb) ==> Misses(code, target, n, v)
      {
        var res := Operate(code, noun, verb);
        if res.Failure? {
          r := Failure(res.error);
          assert InSearchSpace(noun, verb) && Operate(code, noun, verb) == Failure(r.error);
          return;
        }
        if res.value == Some(target) {
          return Success(Some((noun, verb)));
        }
        verb := verb + 1;
      }
      noun := noun + 1;
    }
    return Success(None);
  }
}
