# Toy machine interpreter, modelled in Dafny

`toy_machine.py` interprets programs for a toy computer with 16 registers
`R['0']`..`R['F']`, 256 memory cells `M['00']`..`M['FF']` and a program counter
`PC` that starts at 16. Every register and cell holds hex text: four digits for a value 0..FFFF, and a
`-` followed by three or four digits for a negative value. One
call of `execute` fetches the word at `PC`, splits it into an opcode character and
the fields `d`, `s`, `t` and `addr`, and dispatches on the opcode:

- 1–6 are the ALU: add, subtract, `&`, `^`, `<<`, `>>`, with the range check of `math_op`.
- 7–B move values between registers and memory. Cell `FF` is the I/O port: a load
  from it by opcode 8 prompts for a line, and a store to it prints.
- 0 halts; C and D are conditional branches; E jumps through a register; F is a call.

`main` loads the program file line by line and then calls `execute` until it
halts, raises or moves `PC` past `FF`.

The model has four modules:

- `HexText` (hex_text.dfy) is the text layer: `hex` (`Hex`), `int(s, 16)`
  (`ParseHex`), `str.zfill` (`ZFill`) and the `[-2:]` slice (`LastTwo`). Its
  round-trip lemmas show that each stored text is exactly `Hex(v, 4)` of the
  integer `v` it reads back as. That is why the rest of the model keeps integers.
- `Semantics` (semantics.dfy) gives one call of `execute` as the function `Exec`
  on a machine `State`. It also gives the run loop (`Run`, `After`), the loader
  (`Load`) and the start-up state (`Initial`).
- `Simulator` (machine.dfy) has the class `Machine`. It keeps the source's
  mutable globals as fields: arrays `regs` and `mem`, the counter `pc`, the input
  lines still to be typed and the lines printed so far. Its methods
  `StoreRegister`, `StoreMemory`, `MathOp`, `Step`, `LoadProgram` and `Run` update
  these fields in place. `Step`, `LoadProgram`, `Run` and the constructor are
  proved to produce exactly the state the matching `Semantics` function gives;
  `StoreRegister`, `StoreMemory` and `MathOp`, which have no function of their
  own, state their new state directly.
- `Properties` (properties.dfy) proves what each opcode does to the counter,
  registers, memory and I/O streams, and what it leaves alone. It also proves how
  the run loop ends, and what the loader leaves in memory.

The model follows the code where the program's own messages say otherwise:

- Opcode 4 computes `a ^ b`, exclusive or, although its trace message at
  toy_machine.py:36 calls it "binary OR".
- Register 0 is not write-protected, although the exception at
  toy_machine.py:137 says "Register 00 is reserved". `store_register` compares the
  last character of the index with `'00'`, a test that never holds.
- ALU operands, and the tests of C and D, use the unsigned value of a loaded word,
  so `FFFF` is 65535, not -1. Only a negative ALU result, stored as `-hhh` or `-hhhh`, reads
  back as a negative number.
- `PC` can leave `0..255` downwards after an E through a register holding a
  value of -2 or less, since E continues at `R[d] + 1`. The next fetch then fails (`BadFetch`).

## Model

| member | source | states |
|---|---|---|
| HexText.Hex | toy_machine.py:96-97 | definition of `hex(i, digits)`, Python's `format(i, '0nX')`; its properties are in `HexRoundTrip`, `HexShape` and `WordDigits` |
| HexText.ParseHex | toy_machine.py:23-24 | definition of `int(s, 16)` for an optional sign and hex digits, `None` where Python raises; its properties are in `HexRoundTrip` and `WordRoundTrip` |
| HexText.ZFill | toy_machine.py:127-128 | `str.zfill(w)`: the result is `max(len(s), w)` long, with zeros placed after a leading sign; its property for stored words is in `ZFillByte` |
| HexText.LastTwo | toy_machine.py:100 | the slice `[-2:]`: the last two characters, or the whole text when it is shorter; its properties are in `LowByteKey` and `KeyNamesCell` |
| HexText.HexRoundTrip | toy_machine.py:96-97 | `int(hex(v, digits), 16) == v` for every integer `v` and every width, with sign-aware zero padding for negative values |
| HexText.WordRoundTrip | toy_machine.py:96-97 | every non-empty upper-case digit string is exactly what `hex` prints for its value at its own width |
| HexText.DigitsInjective | toy_machine.py:96-97 | two upper-case digit strings of the same length and value are the same string |
| HexText.HexShape | toy_machine.py:96-97 | `hex(v, digits)` is at least `digits` long for every width, starts with `-` exactly when `v < 0`, and is otherwise upper-case digits |
| HexText.WordDigits | toy_machine.py:96-97 | a word below 0x10000 prints as its four base-16 digits, most significant first |
| HexText.ZFillByte | toy_machine.py:135 | zero-filling a two-digit text to four characters gives `hex` of the same value at width 4 (how opcode 7 and F values are stored) |
| HexText.LowByteKey | toy_machine.py:99-100 | the last two characters of `hex(v, 4)` are `hex(abs(v) % 256, 2)` and read back as `abs(v) % 256`, for negative `v` too |
| Semantics.KeyOf | toy_machine.py:127 | definition of the key `str(addr).zfill(2)[-2:]` taken from a register's text; its properties are in `KeyNamesCell` |
| Semantics.KeyNamesCell | toy_machine.py:127 | the key `str(addr).zfill(2)[-2:]` taken from a register's text is the text of cell `CellOf(v) = abs(v) % 256` and reads back as that number |
| Semantics.Display | toy_machine.py:128-130 | the printed line is the stored text `hex(v, 4)` together with its value `v` |
| Semantics.SplitText | toy_machine.py:15-21 | the fields split from the text `hex(w, 4)`: register fields below 16 and `addr` below 256; its agreement with `Decode` is `DecodeMatchesText` |
| Semantics.BitAnd | toy_machine.py:33-34 | Python's `&` on infinite two's complement: the result is negative exactly when both operands are; bounds in `BitAndBounds` and `SelfOperands` |
| Semantics.BitXor | toy_machine.py:36-37 | Python's `^` on infinite two's complement: the result is negative exactly when exactly one operand is; bounds in `BitXorBounds` and `SelfOperands` |
| Semantics.AluResult | toy_machine.py:26-43 | the six ALU expressions; there is no result (Python's ValueError) exactly for a shift, opcode 5 or 6, by a negative count |
| Semantics.Store | toy_machine.py:126-131 | definition of `store_memory` on a state; its properties are in `StoreDirect`, `StoreIndirect` and `DisplayConsistent` |
| Semantics.Decode | toy_machine.py:15-21 | the fields of a fetched word: register fields below 16, `addr` below 256, opcode `-` exactly for a negative word |
| Semantics.DecodeMatchesText | toy_machine.py:17-21 | decoding by base-16 digits gives the same opcode character as splitting the text, and the same fields for every non-negative word |
| Semantics.Exec | toy_machine.py:12-94 | one step keeps every register and cell a word; a halt or an exception leaves the state exactly as it was; the step halts exactly when the opcode is `0` |
| Semantics.ExecAlu | toy_machine.py:23-43 | the ALU branches keep the state valid and change nothing when they raise |
| Semantics.ExecTransfer | toy_machine.py:45-68 | the register and memory moves keep the state valid and change nothing when the read at `FF` finds no input |
| Semantics.ExecControl | toy_machine.py:70-93 | the halt and jump branches keep the state valid and change nothing on a halt |
| Semantics.Run | toy_machine.py:117-119 | the loop, given a step budget, ends in a valid state (how it ends: `RunStopsAt`) |
| Semantics.After | toy_machine.py:118-119 | the loop's test after a step ends in a valid state |
| Semantics.IsEntry | toy_machine.py:114 | definition of the loader's pattern `^[0-9A-F]{2}: [0-9A-F]{4}`; its properties are in `EntryCell`, `EntryWord`, `LoadUntouched` and `LoadLastWins` |
| Semantics.EntryCell | toy_machine.py:115 | the cell of a program line is below 256, is what `line[0:2]` spells, and `hex` of it gives `line[0:2]` back |
| Semantics.EntryWord | toy_machine.py:115 | the word of a program line is a four-digit word, is what `line[4:8]` spells, and `hex` of it gives `line[4:8]` back |
| Semantics.Load | toy_machine.py:113-115 | the loader keeps 256 cells and keeps every cell a word |
| Semantics.Initial | toy_machine.py:141-144 | the start-up state, with registers and cells zero, the program loaded and `PC = 16`, is a valid state |
| Simulator.Machine.constructor | toy_machine.py:141-144 | every register and every cell is `0000`, the counter is 16, nothing is printed yet |
| Simulator.Machine.LoadProgram | toy_machine.py:113-115 | after the loop over the file's lines, memory is `Load` of the old memory and those lines |
| Simulator.Machine.StoreRegister | toy_machine.py:133-138 | exactly register `d` takes the value, register 0 included; every other register keeps its value |
| Simulator.Machine.StoreMemory | toy_machine.py:126-131 | exactly the cell takes the value; one line is printed exactly when the cell is `FF` |
| Simulator.Machine.LoadMemory | toy_machine.py:99-100 | the key `addr[-2:]`, the last two characters of the register's text `hex(v, 4)`, reads back as the cell `abs(v) % 256`, and the value returned is that cell's word |
| Simulator.Machine.MathOp | toy_machine.py:121-124 | a value outside -32768..32767 raises and changes no register; any other value is written to register `d` alone |
| Simulator.Machine.Step | toy_machine.py:12-94 | the in-place step produces exactly the status and state that `Exec` gives |
| Simulator.Machine.Arithmetic | toy_machine.py:23-43 | the ALU branches in place agree with `ExecAlu` |
| Simulator.Machine.Transfer | toy_machine.py:45-68 | the register and memory moves in place agree with `ExecTransfer` |
| Simulator.Machine.Indirect | toy_machine.py:60-68 | opcodes A and B in place, through the cell register `t`'s text names, agree with `ExecTransfer` |
| Simulator.Machine.LoadRegister | toy_machine.py:48-53 | opcode 8 in place (a typed line first stored in `FF`) agrees with `ExecTransfer` |
| Simulator.Machine.Control | toy_machine.py:70-93 | the halt and jump branches in place, with `PC` set one short of the target, agree with `ExecControl` |
| Simulator.Machine.Run | toy_machine.py:117-119 | the `while` loop in place ends with exactly the outcome and state that `Run` gives |
| Properties.AluOverflowChangesNothing | toy_machine.py:121-123 | an ALU result outside -32768..32767 raises and leaves registers, memory and `PC` as they were |
| Properties.AluWriteBack | toy_machine.py:121-124 | an in-range ALU result is written to register `d` alone, `PC` moves on, and its stored text reads back as the result |
| Properties.AddOverflowExamples | toy_machine.py:23-28 | operands are unsigned: `7FFF + 0001` and `FFFF + 0000` overflow, `7FFF + 0000` does not |
| Properties.SubtractBoundaryExamples | toy_machine.py:29-31 | `0000 - 8000` gives -32768 and is accepted; `0000 - 8001` overflows |
| Properties.BitAndBounds | toy_machine.py:32-34 | `&` of non-negative operands is non-negative and at most either operand |
| Properties.BitXorBounds | toy_machine.py:35-37 | `^` of operands below `2^k` is below `2^k` |
| Properties.LogicInRange | toy_machine.py:32-37 | AND and XOR of operands up to `7FFF` never overflow |
| Properties.SelfOperands | toy_machine.py:32-37 | `a ^ a` is 0 and `a & a` is `a`, for negative `a` too |
| Properties.ShiftRightInRange | toy_machine.py:41-43 | a negative right-shift count raises; a right shift by at least one of a loaded word never overflows |
| Properties.ShiftLeftOverflows | toy_machine.py:38-40 | a left shift of a positive value by 15 or more always overflows |
| Properties.RegisterZeroWritable | toy_machine.py:133-138 | a `70hh` word overwrites register 0 with `hh` |
| Properties.LoadImmediate | toy_machine.py:45-47 | opcode 7 sets register `d` to `addr` and `PC` to the next cell; no other register, cell or stream changes |
| Properties.LoadDirect | toy_machine.py:48-53 | opcode 8 below `FF` copies the cell into register `d`; nothing else changes but `PC` |
| Properties.LoadFromPort | toy_machine.py:48-53 | opcode 8 at `FF` consumes one input line into cell `FF` and register `d`; with no input left it fails and changes nothing |
| Properties.StoreDirect | toy_machine.py:54-59 | opcode 9 changes only cell `addr`, and prints the value's text and value exactly when `addr` is `FF` |
| Properties.DisplayConsistent | toy_machine.py:128-130 | the printed decimal value is `int(text, 16)` of the printed text |
| Properties.LoadIndirect | toy_machine.py:60-62 | opcode A reads the cell named by the low byte of register `t`'s magnitude, never by the `t` nibble |
| Properties.StoreIndirect | toy_machine.py:63-68 | opcode B writes register `d` to the cell named by the low byte of register `t`'s magnitude, printing exactly when that cell is `FF` |
| Properties.HaltChangesNothing | toy_machine.py:70-72 | opcode 0 halts with counter, registers, memory and streams unchanged |
| Properties.NegativeWordSkipped | toy_machine.py:17-94 | a negative word (text `-hhh` or `-hhhh`) matches no opcode: only `PC` moves on |
| Properties.Branches | toy_machine.py:73-84 | C (zero) and D (positive) move the next fetch to exactly `addr` when taken and to the next cell otherwise, changing nothing else |
| Properties.BranchPositiveOnFFFF | toy_machine.py:79-82 | D is taken on `FFFF`, which counts as 65535 |
| Properties.BranchZeroExample | toy_machine.py:73-76 | `C120` on a zero register 1 fetches next at `20`, on `0001` at the next cell |
| Properties.JumpIndirect | toy_machine.py:85-87 | opcode E makes the next fetch `R[d] + 1` |
| Properties.Call | toy_machine.py:88-91 | opcode F stores the address of the F itself in register `d` and fetches next at `addr` |
| Properties.CallReturn | toy_machine.py:85-93 | an F followed, at its target, by an E on the same register comes back to the cell after the F |
| Properties.RunStopsAt | toy_machine.py:117-119 | the loop ends only on opcode 0 at the final counter, with `PC` past `FF`, on a failed fetch, on an exception, or with the budget spent and `PC` not past `FF` |
| Properties.RunFuelIrrelevant | toy_machine.py:117-119 | once the loop has stopped, a larger budget gives the same outcome and state |
| Properties.RunSplit | toy_machine.py:117-119 | running `n` steps and then `m` more is running `n + m` steps |
| Properties.RunContinues | toy_machine.py:117-119 | a step that neither stops the loop nor leaves memory passes the remaining budget on |
| Properties.RunHalts | toy_machine.py:117-119 | a step that halts ends the loop on the state before it |
| Properties.RunPastEnd | toy_machine.py:117-119 | a running step that leaves `PC` past `FF` ends the loop with `PastEnd` on the state after it |
| Properties.RunAborts | toy_machine.py:117-119 | a step that raises ends the loop with that exception on the state after it |
| Properties.LoadedOne | toy_machine.py:113-115 | loading one entry line writes only that entry's cell |
| Properties.LoadedTwo | toy_machine.py:113-115 | loading two entry lines writes their cells in file order |
| Properties.HaltProgram | toy_machine.py:113-119 | the program `10: 0000` halts at the first fetch and leaves every cell zero |
| Properties.Word7120 | toy_machine.py:45-47 | the word `7120` puts `0020` in register 1 and changes nothing else |
| Properties.Word0000 | toy_machine.py:70-72 | the word `0000` halts |
| Properties.LoadImmediateThenHalt | toy_machine.py:117-119 | `7120` followed by `0000` runs one step, then halts with `0020` in register 1 |
| Properties.LoadImmediateProgram | toy_machine.py:113-119 | the program `10: 7120`, `11: 0000` halts at `11` with `0020` in register 1 |
| Properties.WordC0FF | toy_machine.py:73-76 | the word `C0FF` on a zero register 0 jumps to `FF` |
| Properties.Word7000 | toy_machine.py:45-47 | the word `7000` clears register 0 and moves on |
| Properties.JumpPastEnd | toy_machine.py:117-119 | a jump to `FF` followed by an ordinary step there ends the run past `FF`, without a halt |
| Properties.PastEndProgram | toy_machine.py:113-119 | the program `10: C0FF`, `FF: 7000` ends with `PC` past `FF` |
| Properties.LoadUntouched | toy_machine.py:113-115 | a cell that no matching line names keeps its value, whatever the other lines say |
| Properties.LoadLastWins | toy_machine.py:113-115 | a cell holds the word of the last matching line that names it |

## Left out

- Choosing the program file (the file-name prompt and `sys.argv`,
  toy_machine.py:105-112) is I/O plumbing. The file's lines are a parameter of `Load`
  and `LoadProgram`.
- `debug`, the trace strings and the unconditional `print` in opcode F
  (toy_machine.py:9-10, 89) only format output. They are not modelled. What is
  modelled is the line printed by a store to `FF`, as the `Event` appended to the
  output.
- The exception messages (the text built with `hex(PC)` in `math_op`) are left
  out. An exception is modelled as a `Failed` status carrying its cause and the
  counter.
- Lines typed at the `FF` prompt are taken to be four upper-case hex digits, given
  as the list `input`. Other text (lower case, other lengths, non-hex characters)
  is not modelled. Reaching the end of the list is the `EndOfInput` failure,
  Python's EOFError.
- `ParseHex` accepts an optional sign and hex digits, the forms the interpreter
  produces. Python's `int` also accepts whitespace, underscores and a `0x` prefix;
  those are not modelled.
- The `': '` prompt that `input` writes before reading a line at `FF`
  (toy_machine.py:51) is terminal output, not part of the printed lines; it is
  not in `output`.
- Semantics.Run: the source loop is unbounded. The model runs at most `fuel`
  steps, and `OutOfFuel` reports the budget spent. A program that never stops is
  not distinguished from a budget that is too small.
- Simulator.Machine.Run: the same step budget as `Semantics.Run`.
- Semantics.Exec: requires `0 <= PC <= 255`. A fetch at a counter that names no
  cell (a negative `PC` after opcode E through a register holding -2 or less) is Python's KeyError. The run loop
  reports it as `Abort(BadFetch(pc))` before calling the step.
- Simulator.Machine.Step: the same requirement on `PC` as `Semantics.Exec`.
- Semantics.Decode: a negative word has opcode `-`. Its other fields are set to
  zero, because no branch of `execute` reads them.
- Python's integers are unbounded, and so are Dafny's. The range check of
  `math_op` is the only bound, and it is modelled; shifts by large counts are
  computed exactly.
