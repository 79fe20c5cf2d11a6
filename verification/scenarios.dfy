/**
 Whole programs, loaded into a fresh CPU and run: what they print, and how the
 run loop ends after the HLT instruction has been executed.
 */
module Scenarios {
  import opened Wrappers
  import opened PyList
  import opened Ls8
  import opened Execution
  import Loader

  /** A fresh CPU whose memory holds `image` from address 0 on. */
  function Boot(image: seq<nat>): (m: Cpu)
    requires |image| <= RamSize
    ensures |m.ram| == RamSize && m.reg == New().reg && m.pc == 0 && m.running == None
    ensures forall a :: 0 <= a < |image| ==> m.ram[a] == image[a]
    ensures forall a :: |image| <= a < RamSize ==> m.ram[a] == 0
  {
    New().(ram := Loader.Stored(New().ram, image).value)
  }

  /**
   `LDI R0,8; HLT`: after two iterations register 0 holds 8, the attribute is
   False and nothing was printed, yet the loop is still going; the third
   iteration fetches the zero byte after HLT and calls `exit(1)`. The asserts
   spell the trace out state by state for the reader; Dafny needs none of them.
   */
  lemma LdiThenHlt()
    ensures Run(Boot([LDI, 0, 8, HLT]), 2).Paused?
    ensures Run(Boot([LDI, 0, 8, HLT]), 2).cpu.reg[0] == 8
    ensures Run(Boot([LDI, 0, 8, HLT]), 2).cpu.running == Some(false)
    ensures Run(Boot([LDI, 0, 8, HLT]), 2).out == []
    ensures Run(Boot([LDI, 0, 8, HLT]), 3).Exited?
    ensures Run(Boot([LDI, 0, 8, HLT]), 3).status == 1
    ensures Run(Boot([LDI, 0, 8, HLT]), 3).cpu.pc == 4
    ensures Run(Boot([LDI, 0, 8, HLT]), 3).out == []
  {
    var m0 := Boot([LDI, 0, 8, HLT]);
    var m1 := m0.(reg := m0.reg[0 := 8], pc := 3);
    var m2 := m1.(running := Some(false), pc := 4);
    assert Step(m0) == Next(m1, []);
    assert Step(m1) == Next(m2, []);
    assert Step(m2) == Exit(1);
  }

  /**
   `LDI R0,8; PRN R0; HLT` prints 8 exactly once, then the loop runs on into
   `exit(1)`. The asserts spell the trace out state by state for the reader.
   */
  lemma LdiPrnHlt()
    ensures Run(Boot([LDI, 0, 8, PRN, 0, HLT]), 4).Exited?
    ensures Run(Boot([LDI, 0, 8, PRN, 0, HLT]), 4).status == 1
    ensures Run(Boot([LDI, 0, 8, PRN, 0, HLT]), 4).out == [8]
    ensures Run(Boot([LDI, 0, 8, PRN, 0, HLT]), 4).cpu.reg[0] == 8
  {
    var m0 := Boot([LDI, 0, 8, PRN, 0, HLT]);
    var m1 := m0.(reg := m0.reg[0 := 8], pc := 3);
    var m2 := m1.(pc := 5);
    var m3 := m2.(running := Some(false), pc := 6);
    assert Step(m0) == Next(m1, []);
    assert Step(m1) == Next(m2, [8]);
    assert Step(m2) == Next(m3, []);
    assert Step(m3) == Exit(1);
  }

  /** A program that multiplies 8 by 9 and prints the product. */
  const MultImage: seq<nat> := [LDI, 0, 8, LDI, 1, 9, MUL, 0, 1, PRN, 0, HLT]

  /** The instruction text of the program line that loads 8 into register 0. */
  lemma LdiText()
    ensures Loader.Instruction("10000010 # LDI R0,8\n") == "10000010"
  {
    var digits, comment := "10000010", " LDI R0,8\n";
    assert "10000010 # LDI R0,8\n" == digits + " #" + comment;
    Loader.CommentedLine(digits, comment);
  }

  /** The digits `10000010` read as base 2 are the LDI opcode. */
  lemma LdiDigits()
    ensures Loader.IsBinary("10000010") && Loader.BinaryValue("10000010") == LDI
  {
    Loader.BinaryValueIsWeighted("10000010");
    Loader.ByteValue("10000010");
  }

  /** A program line as a program file spells it, commented, loads as the LDI opcode. */
  lemma LdiLineLoads()
    ensures Loader.WellFormed(["10000010 # LDI R0,8\n"])
    ensures Loader.Parse(["10000010 # LDI R0,8\n"]) == [LDI]
  {
    LdiText();
    LdiDigits();
    Loader.ParseLine("10000010 # LDI R0,8\n");
  }

  /** The instruction text of an operand line without a comment. */
  lemma OperandText()
    ensures Loader.Instruction("00001000\n") == "00001000"
  {
    Loader.LineOf("", "00001000", "\n", "");
    assert "00001000\n" == "" + "00001000" + "\n";
  }

  /** The digits `00001000` read as base 2 are 8. */
  lemma OperandDigits()
    ensures Loader.IsBinary("00001000") && Loader.BinaryValue("00001000") == 8
  {
    Loader.BinaryValueIsWeighted("00001000");
    Loader.ByteValue("00001000");
  }

  /** An operand line ended by a newline loads as its value, 8. */
  lemma OperandLineLoads()
    ensures Loader.WellFormed(["00001000\n"])
    ensures Loader.Parse(["00001000\n"]) == [8]
  {
    OperandText();
    OperandDigits();
    Loader.ParseLine("00001000\n");
  }

  /** A comment-only line holds no instruction. */
  lemma HeaderText()
    ensures Loader.Instruction("# 8 times 9\n") == ""
  {
  }

  /** A comment-only line loads nothing. */
  lemma HeaderLoadsNothing()
    ensures Loader.WellFormed(["# 8 times 9\n"])
    ensures Loader.Parse(["# 8 times 9\n"]) == []
  {
  }

  /** Loading the program's text, one commented line per byte, into a fresh CPU gives the booted CPU. */
  lemma MultProgramLoads(comments: seq<string>)
    requires |comments| == |MultImage|
    ensures Loader.WellFormed(Loader.Annotated(MultImage, comments))
    ensures Loader.Stored(New().ram, Loader.Parse(Loader.Annotated(MultImage, comments))) == Ok(Boot(MultImage).ram)
  {
    Loader.ParseAnnotated(MultImage, comments);
  }

  /**
   The multiplication program prints 72, then runs past HLT into `exit(1)`. The
   asserts spell the trace out state by state for the reader.
   */
  lemma MultProgramRuns()
    ensures Run(Boot(MultImage), 6).Exited?
    ensures Run(Boot(MultImage), 6).status == 1
    ensures Run(Boot(MultImage), 6).out == [72]
    ensures Get(Run(Boot(MultImage), 6).cpu.reg, 0) == Ok(72)
    ensures Get(Run(Boot(MultImage), 6).cpu.reg, 1) == Ok(9)
  {
    var m0 := Boot(MultImage);
    var m1 := m0.(reg := m0.reg[0 := 8], pc := 3);
    var m2 := m1.(reg := m1.reg[1 := 9], pc := 6);
    var m3 := m2.(reg := m2.reg[0 := 72], pc := 9);
    var m4 := m3.(pc := 11);
    var m5 := m4.(running := Some(false), pc := 12);
    assert Step(m0) == Next(m1, []);
    assert Step(m1) == Next(m2, []);
    assert Step(m2) == Next(m3, []);
    assert Step(m3) == Next(m4, [72]);
    assert Step(m4) == Next(m5, []);
    assert Step(m5) == Exit(1);
  }
}
