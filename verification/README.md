# LS-8 CPU core, modelled in Dafny

This project models the LS-8 toy CPU of `ls8/cpu.py`. The CPU has a memory of
256 cells, eight registers and a program counter. Its run loop fetches the
byte at PC and the two bytes after it on every iteration. It looks the first
byte up in a branch table that holds four opcodes: LDI, PRN, HLT and MUL. A
hit calls the handler, which advances PC by a fixed amount. A miss calls
`exit(1)`. The project also models the arithmetic unit `alu`, the memory
accessors `ram_read`/`ram_write`, and the text handling of `load`.

The model is functional. A `Cpu` value is immutable, one iteration of the loop
is the total function `Ls8.Step`, and `Execution.Run` iterates it with a fuel
bound.

Files and modules:

- `wrappers.dfy` (`Wrappers`): `Option`, `Result`, and the exceptions the core
  raises (`IndexError`, and the `Exception("Unsupported ALU operation")` of
  `alu`).
- `pylist.dfy` (`PyList`): Python list subscripting, which memory and
  registers both use. A negative subscript counts from the end. A subscript
  outside `-n <= i < n` raises IndexError.
- `cpu.dfy` (`Ls8`): the opcode constants, the CPU state, `ram_read` and
  `ram_write`, `alu`, the four handlers, the branch-table dispatch, the fetch,
  and one iteration of `run`.
- `run.dfy` (`Execution`): the `while running:` loop, both as a recursive
  function and as a method with a loop.
- `loader.dfy` (`Loader`): the line parsing of `load`. A line is cut at its
  first `#` and stripped of Python whitespace. Blank results are skipped. Any
  other result is read as base 2 and stored at the next address.
- `scenarios.dfy` (`Scenarios`): whole programs run on a fresh CPU.

Behaviour reproduced as the code has it:

- HLT assigns the attribute `self.running`, but the loop tests a local
  variable `running` that is always True. Executing HLT therefore does not stop
  the loop. It goes on at the next byte, which is usually 0, and 0 is not in
  the branch table, so the run ends with `exit(1)`. `Execution.RunAlwaysEnds`
  shows that every run ends by `exit(1)` or IndexError, never by HLT.
- The constructor never creates `self.running`. The model keeps it as
  `Option<bool>`: `None` until HLT stores `Some(false)`.
- The fetch reads `ram[PC+1]` and `ram[PC+2]` even for HLT and PRN. So an
  instruction in one of the last two cells raises IndexError before it runs.
- ADD, SUB and DIV have constants, and `alu` implements ADD. None of them is in
  the branch table, so their bytes end the run with `exit(1)`.
- Register and memory values are unbounded Python integers. Nothing wraps at
  8 bits. A register operand outside `-8..7` raises IndexError.
- There is no stack pointer, and there are no PUSH, POP, SUB or DIV handlers.
  A bad register operand is an ordinary Python IndexError. An unknown opcode has
  no error of its own: the loop calls `exit(1)`, which raises `SystemExit(1)`.
  The model reports this as the outcome `Exit(1)`, separate from the `Fault`
  exceptions.
- All eight registers start at 0.
- `load` accepts any run of binary digits on a line, not just eight. So a
  longer literal stores a value above 255.

## Model

| member | source | states |
|---|---|---|
| Ls8.New | ls8/cpu.py:19-23 | a fresh CPU has 256 memory cells and 8 registers, all 0, PC 0, and no `running` attribute yet |
| Ls8.RamRead | ls8/cpu.py:95-96 | `ram_read` succeeds exactly for subscripts inside memory and returns the cell the subscript names, negative subscripts counting from the end; otherwise IndexError |
| Ls8.RamWrite | ls8/cpu.py:98-99 | `ram_write` succeeds exactly for subscripts inside memory, touches neither registers nor PC, and keeps memory's size |
| Ls8.RamWriteThenRead | ls8/cpu.py:95-99 | after `ram_write(a, v)`, `ram_read(a)` returns v, and a read of any other cell returns what it did before |
| Ls8.FreshRamWriteThenRead | ls8/cpu.py:21-21 | on a fresh CPU, writing one address makes that address read back the value and every other address still read 0 |
| PyList.Get | ls8/cpu.py:95-96 | a list subscript succeeds exactly for `-n <= i < n`, then yields the cell it names (counting from the end when negative); otherwise IndexError |
| PyList.Set | ls8/cpu.py:98-99 | a list assignment succeeds exactly for `-n <= i < n`, keeps the length, puts the value in the named cell and leaves every other cell; otherwise IndexError |
| PyList.SetThenGetOther | ls8/cpu.py:98-99 | writing one list cell leaves every subscript that names another cell unchanged, negative subscripts included |
| Ls8.Alu | ls8/cpu.py:64-73 | any operation other than "ADD" and "MUL" raises the unsupported-operation exception and changes nothing; ADD and MUL succeed exactly when both register subscripts are valid and change only the first register |
| Ls8.AluAdd | ls8/cpu.py:67-68 | ADD leaves the first register holding its old value plus the second register's |
| Ls8.AluMul | ls8/cpu.py:70-71 | MUL leaves the first register holding its old value times the second register's, which squares it when both name the same register |
| Ls8.Ldi | ls8/cpu.py:36-38 | LDI a, b makes `reg[a]` b and advances PC by 3; other registers, memory and output are unchanged; a bad register subscript raises IndexError |
| Ls8.Prn | ls8/cpu.py:40-42 | PRN a prints exactly one value, `reg[a]`, advances PC by 2, and changes no register or memory |
| Ls8.Hlt | ls8/cpu.py:44-46 | HLT sets the attribute to False, advances PC by 1, prints nothing and changes no register or memory |
| Ls8.Mul | ls8/cpu.py:48-50 | MUL a, b makes `reg[a]` the product of the old `reg[a]` and `reg[b]`, advances PC by 3, and changes nothing else |
| Ls8.Dispatch | ls8/cpu.py:109-112 | a byte outside the branch table gives `exit(1)`, and only such a byte does; a handler that completes advances PC by one plus the operand count in the opcode's top two bits and leaves memory as it was |
| Ls8.Fetch | ls8/cpu.py:105-107 | the fetch succeeds exactly when PC+2 lies inside memory and then yields the cells at PC, PC+1 and PC+2 |
| Ls8.Step | ls8/cpu.py:104-112 | one iteration raises IndexError when PC+2 is past memory, exits only with status 1 on a byte outside the branch table, never writes memory, prints at most one value, and moves PC past the operands the opcode declares |
| Ls8.OpcodeEncoding | ls8/cpu.py:7-13 | the top two bits of HLT, PRN, LDI and MUL are 0, 1, 2 and 2; bit 5 is set on ADD, SUB, MUL and DIV only; MUL is the one dispatched opcode with that bit |
| Ls8.StepAdvance | ls8/cpu.py:36-50 | only a byte in the branch table completes an iteration, and PC then moves by 1 for HLT, 2 for PRN, 3 for LDI and MUL |
| Ls8.UnknownOpcodeExits | ls8/cpu.py:109-112 | with the fetch in range, the iteration is `exit(1)` if and only if the byte at PC is not LDI, PRN, HLT or MUL |
| Ls8.UndispatchedAluOpcodesExit | ls8/cpu.py:29-33 | the bytes of ADD, SUB and DIV, and the byte 0, are not in the branch table and end the run with `exit(1)` |
| Ls8.StepIgnoresRunning | ls8/cpu.py:103-104 | the value of the `running` attribute never changes what an iteration does |
| Execution.Iterate | ls8/cpu.py:103-112 | the loop `while True: body()` cut off after `fuel` iterations: a run that exits or raises reports the state whose iteration did so, with that status or exception |
| Execution.Run | ls8/cpu.py:101-112 | `run()` is that loop with one CPU iteration as its body; the contract carries over the same facts, and `RunInvariant` states the rest |
| Execution.HltDoesNotStopTheLoop | ls8/cpu.py:44-46 | after HLT the loop carries on, executing the byte after it with PC one further and the attribute False |
| Execution.RunAlwaysEnds | ls8/cpu.py:103-112 | from PC p on a memory of n cells, n-p-1 iterations suffice for every run to end, and it ends by `exit(1)` or IndexError |
| Execution.RunInvariant | ls8/cpu.py:101-112 | over a whole run memory never changes, the register count stays the same, PC never decreases, at most one value is printed per iteration, the exit status is always 1, the only exception is IndexError, and the reported state is the one whose iteration ended the run |
| Execution.IterateSplit | ls8/cpu.py:103-104 | running a+b iterations gives the same result as running a, then b more from the paused state, with the printed values concatenated |
| Execution.Loop | ls8/cpu.py:103-110 | the imperative loop gives the same state, output and ending as the recursive definition |
| Execution.RunLoop | ls8/cpu.py:101-112 | `run` with the CPU's iteration as the loop body gives the result of `Run` |
| Loader.Instruction | ls8/cpu.py:58-59 | the instruction text of a line is no longer than the line, holds no `#`, and neither starts nor ends with whitespace |
| Loader.LineOf | ls8/cpu.py:58-59 | for a line made of whitespace, a text without `#`, whitespace, and optionally `#` and a comment, the instruction is exactly that text |
| Loader.Strip | ls8/cpu.py:59-59 | `strip()` yields the part of the string after the dropped whitespace prefix, followed only by whitespace, and not starting or ending with whitespace |
| Loader.StripOf | ls8/cpu.py:59-59 | whatever lies between a whitespace prefix and a whitespace suffix, and neither starts nor ends with whitespace, is exactly what `strip()` keeps |
| Loader.StripBetween | ls8/cpu.py:59-59 | `strip()` keeps exactly the stretch from the first to the last character that is not whitespace |
| Loader.BeforeComment | ls8/cpu.py:58-58 | `line.split("#")[0]` is the longest prefix of the line that contains no `#` |
| Loader.Indent | ls8/cpu.py:59-59 | the characters `strip` drops from the start are all whitespace, and the first one kept is not |
| Loader.Outdent | ls8/cpu.py:59-59 | the characters `strip` drops from the end are all whitespace, and the last one kept is not |
| Loader.BinaryValue | ls8/cpu.py:61-61 | `int(s, 2)` of n binary digits is below 2^n |
| Loader.BinaryValueIsWeighted | ls8/cpu.py:61-61 | `int(s, 2)` is positional notation with the most significant digit first: the first of n digits weighs 2^(n-1) |
| Loader.ByteValue | ls8/cpu.py:61-61 | eight digits weigh 128, 64, 32, 16, 8, 4, 2 and 1 from left to right |
| Loader.BinaryRoundTrip | ls8/cpu.py:61-61 | reading back the binary spelling of a value below 2^w in w digits gives the value |
| Loader.DigitsRoundTrip | ls8/cpu.py:61-61 | spelling a digit string's value in as many digits gives the digit string back |
| Loader.Parse | ls8/cpu.py:57-62 | `load` stores at most one value per line; `ParseLine` and `ParseAppend` together pin down the rest |
| Loader.ParseLine | ls8/cpu.py:57-62 | one line stores nothing when its instruction text is empty, and otherwise the base-2 value of that text |
| Loader.ValuesOfDigits | ls8/cpu.py:60-62 | when no instruction text is empty, the k-th value stored is the value of the k-th text |
| Loader.ParseCount | ls8/cpu.py:57-62 | the number of values stored equals the number of lines that are non-blank once the comment is cut off |
| Loader.ParseAppend | ls8/cpu.py:57-62 | the lines are parsed independently: two concatenated files store the first file's values followed by the second's |
| Loader.ParseSkipsBlank | ls8/cpu.py:60-60 | a blank or comment-only line stores nothing, wherever it stands |
| Loader.BlankLine | ls8/cpu.py:58-60 | a line of whitespace, with or without a comment after it, has an empty instruction |
| Loader.CommentedLine | ls8/cpu.py:58-59 | binary digits followed by ` #` and any comment yield exactly the digits |
| Loader.ParseRender | ls8/cpu.py:57-62 | a file of one 8-digit line per byte loads back as exactly those bytes |
| Loader.ParseAnnotated | ls8/cpu.py:57-62 | the same holds when every line carries a comment after its digits |
| Loader.Stored | ls8/cpu.py:54-62 | storing an image from address 0 succeeds exactly when it fits in memory, puts value k at address k, and leaves the later cells as they were; otherwise IndexError |
| Loader.Load | ls8/cpu.py:52-62 | `load` over a list of lines leaves memory holding the parsed values from address 0 on, or raises IndexError if there are more values than cells |
| Loader.StoreInstructions | ls8/cpu.py:57-62 | the loop with its running address gives the memory `Stored` describes for the values of the instruction texts |
| Scenarios.Boot | ls8/cpu.py:54-62 | a fresh CPU loaded with an image holds the image from address 0, zeros after it, zero registers and PC 0 |
| Scenarios.LdiThenHlt | ls8/cpu.py:36-46 | `LDI R0,8; HLT` puts 8 in register 0 and prints nothing; after HLT the loop is still going, and its next iteration calls `exit(1)` at PC 4 |
| Scenarios.LdiPrnHlt | ls8/cpu.py:36-46 | `LDI R0,8; PRN R0; HLT` prints 8 exactly once and then ends with `exit(1)` |
| Scenarios.LdiLineLoads | ls8/cpu.py:57-62 | the program line `10000010 # LDI R0,8` loads as the LDI opcode, 130 |
| Scenarios.OperandLineLoads | ls8/cpu.py:57-62 | the program line `00001000` with its newline loads as 8 |
| Scenarios.HeaderLoadsNothing | ls8/cpu.py:58-60 | a comment-only program line loads nothing |
| Scenarios.MultProgramLoads | ls8/cpu.py:54-62 | the commented text of a multiply program loads into a fresh CPU as its twelve bytes |
| Scenarios.MultProgramRuns | ls8/cpu.py:36-50 | the multiply program leaves 72 in register 0 and 9 in register 1, prints 72 once, and ends with `exit(1)` (status 1) after HLT |

## Left out

- Opening the hard-coded program file (ls8/cpu.py:56) is file I/O. `load` is modelled over the list of lines the file would yield, newlines included.
- The program file that `load` opens is not part of this model. The multiply program in `Scenarios` is written out in the model itself.
- Console output: PRN's `print` is modelled as appending the register's value to an output sequence. The decimal formatting is left out.
- `trace` (ls8/cpu.py:75-93) only formats debug output and is left out.
- `exit(1)` is modelled as the outcome `Exit(1)`. Process termination is left out.
- The fields `IR`, `MAR`, `MDR` and `FL` (ls8/cpu.py:24-27) are never read or written after construction, so they are left out.
- The code has no PUSH, POP, stack pointer, SUB or DIV behaviour, so the model has none.
- Loader.WellFormed: an instruction text must be the ASCII digits 0 and 1 only. Python's `int(s, 2)` also accepts a sign, a `0b` prefix, underscores between digits, and any non-ASCII Unicode decimal digit whose value is 0 or 1 (fullwidth or Arabic-Indic digits, for example). It raises ValueError on other text. None of these extra forms, and not the ValueError, is modelled.
- Loader.Load: when there are more values than cells, Python has already written the first 256 before it raises IndexError. The model returns only the IndexError, not the partly written memory.
- Execution.Run: the loop is cut off after `fuel` iterations. `Execution.RunAlwaysEnds` shows that 255 iterations from PC 0 always reach the end, so the bound loses nothing.
- The hash-based lookup of the branch table is modelled as a comparison with the four opcodes.
