/**
 The LS-8 CPU of ls8/cpu.py as an immutable state record: 256 cells of memory,
 8 registers, the program counter and the `running` attribute, together with
 the memory accessors, the arithmetic-logic unit, the four instruction handlers
 of the branch table and one iteration of the run loop.
 */
module Ls8 {
  import opened Wrappers
  import opened PyList

  // Opcodes. The top two bits count the operand bytes, bit 5 flags an ALU operation.
  const HLT: int := 0x01  // 0b00000001
  const LDI: int := 0x82  // 0b10000010
  const PRN: int := 0x47  // 0b01000111
  const ADD: int := 0xA0  // 0b10100000
  const SUB: int := 0xA1  // 0b10100001
  const MUL: int := 0xA2  // 0b10100010
  const DIV: int := 0xA3  // 0b10100011

  const RamSize: nat := 256
  const RegisterCount: nat := 8

  /**
   The CPU object. `running` is the attribute the HLT handler assigns: the
   constructor never creates it, so it starts as None. The fields IR, MAR, MDR
   and FL are never used after construction and are not modelled.
   */
  datatype Cpu = Cpu(ram: seq<int>, reg: seq<int>, pc: nat, running: Option<bool>)

  /** What one iteration of the run loop ends with. */
  datatype Outcome =
    | Next(cpu: Cpu, printed: seq<int>)  // the iteration completed; `printed` is what PRN wrote
    | Exit(status: int)                  // `exit(status)` was called
    | Raise(fault: Fault)                // an exception escaped; no state was changed

  /** A freshly constructed CPU. */
  function New(): (m: Cpu)
    ensures |m.ram| == RamSize && forall a :: 0 <= a < |m.ram| ==> m.ram[a] == 0
    ensures |m.reg| == RegisterCount && forall i :: 0 <= i < |m.reg| ==> m.reg[i] == 0
    ensures m.pc == 0 && m.running == None
  {
    Cpu(seq(RamSize, _ => 0), seq(RegisterCount, _ => 0), 0, None)
  }

  /** `ram_read(MAR)` */
  function RamRead(m: Cpu, mar: int): (r: Result<int>)
    ensures r.Ok? <==> InRange(|m.ram|, mar)
    ensures r.Err? ==> r.fault == IndexError
    ensures r.Ok? ==> r.value == m.ram[Cell(|m.ram|, mar)]
    ensures 0 <= mar < |m.ram| ==> r == Ok(m.ram[mar])
  {
    Get(m.ram, mar)
  }

  /** `ram_write(MAR, MDR)` */
  function RamWrite(m: Cpu, mar: int, mdr: int): (r: Result<Cpu>)
    ensures r.Ok? <==> InRange(|m.ram|, mar)
    ensures r.Err? ==> r.fault == IndexError
    ensures r.Ok? ==> r.value.reg == m.reg && r.value.pc == m.pc && r.value.running == m.running
    ensures r.Ok? ==> |r.value.ram| == |m.ram|
  {
    var ram :- Set(m.ram, mar, mdr);
    Ok(m.(ram := ram))
  }

  /** A value written to memory is what a read of the same address returns, and no other cell changes. */
  lemma RamWriteThenRead(m: Cpu, mar: int, mdr: int, other: int)
    requires InRange(|m.ram|, mar)
    ensures RamWrite(m, mar, mdr).Ok?
    ensures RamRead(RamWrite(m, mar, mdr).value, mar) == Ok(mdr)
    ensures !InRange(|m.ram|, other) || Cell(|m.ram|, other) != Cell(|m.ram|, mar) ==>
              RamRead(RamWrite(m, mar, mdr).value, other) == RamRead(m, other)
  {
  }

  /** The fresh CPU reads 0 at every address, and writing one address of it changes only that cell. */
  lemma FreshRamWriteThenRead(mar: nat, mdr: int, other: nat)
    requires mar < RamSize && other < RamSize && other != mar
    ensures RamWrite(New(), mar, mdr).Ok?
    ensures RamRead(RamWrite(New(), mar, mdr).value, mar) == Ok(mdr)
    ensures RamRead(RamWrite(New(), mar, mdr).value, other) == Ok(0)
  {
    RamWriteThenRead(New(), mar, mdr, other);
  }

  /** `alu(op, reg_a, reg_b)` on the register list. */
  function Alu(reg: seq<int>, op: string, regA: int, regB: int): (r: Result<seq<int>>)
    ensures op != "ADD" && op != "MUL" ==> r == Err(UnsupportedAluOperation)
    ensures op == "ADD" || op == "MUL" ==>
              (r.Ok? <==> InRange(|reg|, regA) && InRange(|reg|, regB))
    ensures r.Err? && (op == "ADD" || op == "MUL") ==> r.fault == IndexError
    ensures r.Ok? ==> |r.value| == |reg|
    ensures r.Ok? ==> forall k :: 0 <= k < |reg| && k != Cell(|reg|, regA) ==> r.value[k] == reg[k]
  {
    if op == "ADD" then
      var a :- Get(reg, regA);
      var b :- Get(reg, regB);
      Set(reg, regA, a + b)
    else if op == "MUL" then
      var a :- Get(reg, regA);
      var b :- Get(reg, regB);
      Set(reg, regA, a * b)
    else
      Err(UnsupportedAluOperation)
  }

  /** ADD adds the second register into the first. */
  lemma AluAdd(reg: seq<int>, regA: int, regB: int)
    requires InRange(|reg|, regA) && InRange(|reg|, regB)
    ensures Alu(reg, "ADD", regA, regB).Ok?
    ensures Get(Alu(reg, "ADD", regA, regB).value, regA) ==
            Ok(Get(reg, regA).value + Get(reg, regB).value)
  {
  }

  /** MUL multiplies the first register by the second; with both the same register it squares it. */
  lemma AluMul(reg: seq<int>, regA: int, regB: int)
    requires InRange(|reg|, regA) && InRange(|reg|, regB)
    ensures Alu(reg, "MUL", regA, regB).Ok?
    ensures Get(Alu(reg, "MUL", regA, regB).value, regA) ==
            Ok(Get(reg, regA).value * Get(reg, regB).value)
    ensures Cell(|reg|, regA) == Cell(|reg|, regB) ==>
              Get(Alu(reg, "MUL", regA, regB).value, regA) == Ok(Get(reg, regA).value * Get(reg, regA).value)
  {
  }

  /** The four opcodes that the branch table maps to a handler. */
  predicate Dispatched(op: int) {
    op == LDI || op == PRN || op == HLT || op == MUL
  }

  /** Number of operand bytes an opcode declares: its top two bits. */
  function OperandCount(op: int): (n: nat)
    requires 0 <= op < 256
    ensures n <= 3
  {
    ((op as bv8) >> 6) as nat
  }

  /** Whether an opcode carries the ALU flag, bit 5. */
  predicate IsAluOp(op: int)
    requires 0 <= op < 256
  {
    ((op as bv8) >> 5) & 1 == 1
  }

  /** The LDI handler: `reg[a] = b`, then PC advances by 3. */
  function Ldi(m: Cpu, a: int, b: int): (r: Outcome)
    ensures r.Next? <==> InRange(|m.reg|, a)
    ensures !r.Next? ==> r == Raise(IndexError)
    ensures r.Next? ==> r.printed == [] && r.cpu.ram == m.ram && r.cpu.running == m.running
    ensures r.Next? ==> r.cpu.pc == m.pc + 3
    ensures r.Next? ==> |r.cpu.reg| == |m.reg| && Get(r.cpu.reg, a) == Ok(b)
    ensures r.Next? ==> forall k :: 0 <= k < |m.reg| && k != Cell(|m.reg|, a) ==> r.cpu.reg[k] == m.reg[k]
  {
    match Set(m.reg, a, b)
    case Ok(reg) => Next(m.(reg := reg, pc := m.pc + 3), [])
    case Err(e) => Raise(e)
  }

  /** The PRN handler: print `reg[a]`, then PC advances by 2. */
  function Prn(m: Cpu, a: int, b: int): (r: Outcome)
    ensures r.Next? <==> InRange(|m.reg|, a)
    ensures !r.Next? ==> r == Raise(IndexError)
    ensures r.Next? ==> r.cpu.ram == m.ram && r.cpu.reg == m.reg && r.cpu.running == m.running
    ensures r.Next? ==> r.cpu.pc == m.pc + 2
    ensures r.Next? ==> |r.printed| == 1 && Get(m.reg, a) == Ok(r.printed[0])
  {
    match Get(m.reg, a)
    case Ok(v) => Next(m.(pc := m.pc + 2), [v])
    case Err(e) => Raise(e)
  }

  /** The HLT handler: assigns the `running` attribute False, then PC advances by 1. */
  function Hlt(m: Cpu, a: int, b: int): (r: Outcome)
    ensures r.Next? && r.printed == []
    ensures r.cpu.ram == m.ram && r.cpu.reg == m.reg
    ensures r.cpu.pc == m.pc + 1 && r.cpu.running == Some(false)
  {
    Next(m.(running := Some(false), pc := m.pc + 1), [])
  }

  /** The MUL handler: `alu("MUL", a, b)`, then PC advances by 3. */
  function Mul(m: Cpu, a: int, b: int): (r: Outcome)
    ensures r.Next? <==> InRange(|m.reg|, a) && InRange(|m.reg|, b)
    ensures !r.Next? ==> r == Raise(IndexError)
    ensures r.Next? ==> r.printed == [] && r.cpu.ram == m.ram && r.cpu.running == m.running
    ensures r.Next? ==> r.cpu.pc == m.pc + 3
    ensures r.Next? ==> |r.cpu.reg| == |m.reg|
    ensures r.Next? ==> Get(r.cpu.reg, a) == Ok(m.reg[Cell(|m.reg|, a)] * m.reg[Cell(|m.reg|, b)])
    ensures r.Next? ==> forall k :: 0 <= k < |m.reg| && k != Cell(|m.reg|, a) ==> r.cpu.reg[k] == m.reg[k]
  {
    match Alu(m.reg, "MUL", a, b)
    case Ok(reg) => Next(m.(reg := reg, pc := m.pc + 3), [])
    case Err(e) => Raise(e)
  }

  /** Looking `op` up in the branch table and calling the handler with both operands; a miss is `exit(1)`. */
  function Dispatch(m: Cpu, op: int, a: int, b: int): (r: Outcome)
    ensures !Dispatched(op) <==> r == Exit(1)
    ensures r.Exit? ==> r.status == 1
    ensures r.Raise? ==> r.fault == IndexError
    ensures r.Next? ==> r.cpu.ram == m.ram && |r.cpu.reg| == |m.reg| && |r.printed| <= 1
    ensures r.Next? ==> 0 <= op < 256 && r.cpu.pc == m.pc + 1 + OperandCount(op)
  {
    if op == LDI then Ldi(m, a, b)
    else if op == PRN then Prn(m, a, b)
    else if op == HLT then Hlt(m, a, b)
    else if op == MUL then Mul(m, a, b)
    else Exit(1)
  }

  /** The three reads at the top of each iteration: the instruction and the two bytes after it. */
  function Fetch(m: Cpu): (r: Result<(int, int, int)>)
    ensures r.Ok? <==> m.pc + 2 < |m.ram|
    ensures r.Err? ==> r.fault == IndexError
    ensures r.Ok? ==> r.value == (m.ram[m.pc], m.ram[m.pc + 1], m.ram[m.pc + 2])
  {
    var instruction :- RamRead(m, m.pc);
    var operandA :- RamRead(m, m.pc + 1);
    var operandB :- RamRead(m, m.pc + 2);
    Ok((instruction, operandA, operandB))
  }

  /** One iteration of the body of `run`. */
  function Step(m: Cpu): (r: Outcome)
    ensures m.pc + 2 >= |m.ram| ==> r == Raise(IndexError)
    ensures r.Raise? ==> r.fault == IndexError
    ensures r.Exit? ==> r.status == 1 && m.pc < |m.ram| && !Dispatched(m.ram[m.pc])
    ensures r.Next? ==> r.cpu.ram == m.ram && |r.cpu.reg| == |m.reg| && |r.printed| <= 1
    ensures r.Next? ==> m.pc < |m.ram| && 0 <= m.ram[m.pc] < 256
    ensures r.Next? ==> r.cpu.pc == m.pc + 1 + OperandCount(m.ram[m.pc])
  {
    match Fetch(m)
    case Err(e) => Raise(e)
    case Ok((op, a, b)) => Dispatch(m, op, a, b)
  }

  /**
   The encoding of the opcode constants: the top two bits give the operand count,
   so each handler advances PC by one more than that; bit 5 is set exactly on the
   arithmetic opcodes, and MUL is the only one of those in the branch table.
   */
  lemma OpcodeEncoding()
    ensures OperandCount(HLT) == 0 && OperandCount(PRN) == 1
    ensures OperandCount(LDI) == 2 && OperandCount(MUL) == 2
    ensures OperandCount(ADD) == 2 && OperandCount(SUB) == 2 && OperandCount(DIV) == 2
    ensures IsAluOp(ADD) && IsAluOp(SUB) && IsAluOp(MUL) && IsAluOp(DIV)
    ensures !IsAluOp(HLT) && !IsAluOp(LDI) && !IsAluOp(PRN)
    ensures forall op :: Dispatched(op) ==> 0 <= op < 256 && (IsAluOp(op) <==> op == MUL)
  {
  }

  /**
   Only the four handlers complete an iteration, and they move PC by 1 (HLT),
   2 (PRN) or 3 (LDI, MUL): the values of `1 + (opcode >> 6)` that `Step` promises.
   */
  lemma StepAdvance(m: Cpu)
    requires Step(m).Next?
    ensures Dispatched(m.ram[m.pc])
    ensures Step(m).cpu.pc - m.pc == 1 + (if m.ram[m.pc] == HLT then 0 else if m.ram[m.pc] == PRN then 1 else 2)
  {
  }

  /** A fetched byte outside the branch table ends the run with status 1 and changes nothing. */
  lemma UnknownOpcodeExits(m: Cpu)
    requires m.pc + 2 < |m.ram|
    ensures Step(m) == Exit(1) <==> !Dispatched(m.ram[m.pc])
  {
  }

  /** ADD, SUB and DIV carry the ALU flag, yet the branch table has no entry for them: they exit. */
  lemma UndispatchedAluOpcodesExit(m: Cpu)
    requires m.pc + 2 < |m.ram|
    requires m.ram[m.pc] in {ADD, SUB, DIV, 0}
    ensures Step(m) == Exit(1)
  {
  }

  /**
   The iteration never consults the `running` attribute: whatever HLT has stored
   there, the next iteration behaves the same, so halting does not stop the loop.
   */
  lemma StepIgnoresRunning(m: Cpu, flag: Option<bool>)
    ensures Step(m.(running := flag)).Next? <==> Step(m).Next?
    ensures !Step(m).Next? ==> Step(m.(running := flag)) == Step(m)
    ensures Step(m).Next? ==> Step(m.(running := flag)).printed == Step(m).printed
    ensures Step(m).Next? && m.ram[m.pc] != HLT ==> Step(m.(running := flag)).cpu == Step(m).cpu.(running := flag)
    ensures Step(m).Next? && m.ram[m.pc] == HLT ==> Step(m.(running := flag)).cpu == Step(m).cpu
  {
  }
}
