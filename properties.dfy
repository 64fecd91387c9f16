/**
 What one step and the run loop promise, stated over `Semantics.Exec` and
 `Semantics.Run`: the effect of each opcode on the counter, the registers, the
 memory and the I/O streams, and what stays as it was.
 */
module Properties {
  import opened HexText
  import opened Semantics

  /** A state about to execute the word at `pc`, decoded as `ins`. */
  predicate Fetching(st: State, ins: Instruction) {
    Valid(st) && 0 <= st.pc < CellCount && ins == Decode(st.mem[st.pc])
  }

  // ----- ALU, opcodes 1-6 -----

  /** A result outside -32768..32767 raises and the state stays as it was. */
  lemma AluOverflowChangesNothing(st: State, ins: Instruction, v: int)
    requires Fetching(st, ins) && IsAluOp(ins.opcode)
    requires AluResult(ins.opcode, st.regs[ins.s], st.regs[ins.t]) == Some(v) && !InResultRange(v)
    ensures Exec(st) == Transition(Failed(Overflow(st.pc, v)), st)
  {
  }

  /** An in-range result is written to register `d` alone, the counter moves on,
      and the text `hex(v, 4)` stored for it reads back as `v`. */
  lemma AluWriteBack(st: State, ins: Instruction, v: int)
    requires Fetching(st, ins) && IsAluOp(ins.opcode)
    requires AluResult(ins.opcode, st.regs[ins.s], st.regs[ins.t]) == Some(v) && InResultRange(v)
    ensures Exec(st).status == Running
    ensures Exec(st).next == st.(regs := st.regs[ins.d := v], pc := st.pc + 1)
    ensures ParseHex(Hex(v, 4)) == Some(v)
  {
    HexRoundTrip(v, 4);
  }

  /** The operands are the unsigned values of the words: `7FFF + 0001` and
      `FFFF + 0000` both overflow, `7FFF + 0000` does not. */
  lemma AddOverflowExamples(st: State)
    requires Valid(st) && 0 <= st.pc < CellCount && st.mem[st.pc] == 0x1123
    ensures st.regs[2] == 0x7FFF && st.regs[3] == 0x0001 ==> Exec(st) == Transition(Failed(Overflow(st.pc, 0x8000)), st)
    ensures st.regs[2] == 0xFFFF && st.regs[3] == 0x0000 ==> Exec(st) == Transition(Failed(Overflow(st.pc, 0xFFFF)), st)
    ensures st.regs[2] == 0x7FFF && st.regs[3] == 0x0000 ==> Exec(st).next.regs[1] == 32767
  {
  }

  /** `0000 - 8000` gives -32768, the lowest accepted result; `0000 - 8001` overflows. */
  lemma SubtractBoundaryExamples(st: State)
    requires Valid(st) && 0 <= st.pc < CellCount && st.mem[st.pc] == 0x2123
    ensures st.regs[2] == 0 && st.regs[3] == 0x8000 ==> Exec(st).status == Running && Exec(st).next.regs[1] == -32768
    ensures st.regs[2] == 0 && st.regs[3] == 0x8001 ==> Exec(st) == Transition(Failed(Overflow(st.pc, -32769)), st)
  {
  }

  /** Python's `&` of non-negative operands is non-negative and bounded by both. */
  lemma {:induction false} BitAndBounds(a: int, b: int)
    requires 0 <= a && 0 <= b
    ensures 0 <= BitAnd(a, b) <= a && BitAnd(a, b) <= b
    decreases a + b
  {
    if !((a == 0 || a == -1) && (b == 0 || b == -1)) {
      BitAndBounds(a / 2, b / 2);
    }
  }

  /** Python's `^` of two operands below 2^k stays below 2^k. */
  lemma {:induction false} BitXorBounds(a: int, b: int, k: nat)
    requires 0 <= a < Pow2(k) && 0 <= b < Pow2(k)
    ensures 0 <= BitXor(a, b) < Pow2(k)
    decreases k
  {
    if !((a == 0 || a == -1) && (b == 0 || b == -1)) {
      BitXorBounds(a / 2, b / 2, k - 1);
    }
  }

  /** AND and XOR of operands that are both at most `7FFF` never overflow. */
  lemma LogicInRange(a: int, b: int)
    requires 0 <= a <= MaxResult && 0 <= b <= MaxResult
    ensures InResultRange(BitAnd(a, b)) && InResultRange(BitXor(a, b))
  {
    BitAndBounds(a, b);
    assert Pow2(15) == 32768 by {
      assert Pow2(4) == 16;
      assert Pow2(8) == 256;
      assert Pow2(12) == 4096;
    }
    BitXorBounds(a, b, 15);
  }

  lemma {:induction false} Pow2Grows(j: nat, k: nat)
    requires j <= k
    ensures Pow2(j) <= Pow2(k)
    decreases k
  {
    if j < k {
      Pow2Grows(j, k - 1);
    }
  }

  lemma HalfBound(a: int, p: int)
    requires 0 <= a <= 0xFFFF && p >= 2
    ensures 0 <= a / p <= MaxResult
  {
    var q := a / p;
    assert q * p <= a;
    assert q * p >= 2 * q;
  }

  /** A right shift by at least one of any word loaded or typed in never overflows;
      a negative count is Python's ValueError. */
  lemma ShiftRightInRange(a: int, b: int)
    requires 0 <= a <= 0xFFFF
    ensures b < 0 ==> AluResult('6', a, b) == None
    ensures b >= 1 ==> AluResult('6', a, b).Some? && InResultRange(AluResult('6', a, b).value)
  {
    if b >= 1 {
      assert Pow2(b) == 2 * Pow2(b - 1);
      HalfBound(a, Pow2(b));
    }
  }

  /** A left shift of a positive value by 15 places or more always overflows. */
  lemma ShiftLeftOverflows(a: int, b: int)
    requires 1 <= a && 15 <= b
    ensures AluResult('5', a, b).Some? && !InResultRange(AluResult('5', a, b).value)
  {
    Pow2Grows(15, b);
    assert Pow2(15) == 32768 by {
      assert Pow2(4) == 16;
      assert Pow2(8) == 256;
      assert Pow2(12) == 4096;
    }
    assert a * Pow2(b) >= Pow2(b) by {
      assert a * Pow2(b) - Pow2(b) == (a - 1) * Pow2(b);
    }
  }

  /** Python's `^` of a value with itself is zero, and `&` of a value with itself is the value. */
  lemma {:induction false} SelfOperands(a: int)
    ensures BitXor(a, a) == 0 && BitAnd(a, a) == a
    decreases if a < 0 then -a else a
  {
    if a != 0 && a != -1 {
      SelfOperands(a / 2);
    }
  }

  // ----- Registers and memory, opcodes 7-B -----

  /** `store_register` does not protect register 0: `70hh` overwrites it. */
  lemma RegisterZeroWritable(st: State, w: int)
    requires Valid(st) && 0 <= st.pc < CellCount && st.mem[st.pc] == w
    requires 0 <= w < 0x1_0000 && w / 256 == 0x70
    ensures Exec(st).status == Running && Exec(st).next.regs[0] == w % 256
  {
  }

  /** Opcode 7: register `d` takes the byte `addr`; nothing else changes but the counter. */
  lemma LoadImmediate(st: State, ins: Instruction)
    requires Fetching(st, ins) && ins.opcode == '7'
    ensures var r := Exec(st);
      && r.status == Running && r.next.pc == st.pc + 1
      && r.next.regs[ins.d] == ins.addr
      && (forall i :: 0 <= i < RegisterCount && i != ins.d ==> r.next.regs[i] == st.regs[i])
      && r.next.mem == st.mem && r.next.input == st.input && r.next.output == st.output
  {
  }

  /** Opcode 8 below `FF`: register `d` takes the cell; nothing else changes. */
  lemma LoadDirect(st: State, ins: Instruction)
    requires Fetching(st, ins) && ins.opcode == '8' && ins.addr != Port
    ensures var r := Exec(st);
      && r.status == Running && r.next.pc == st.pc + 1
      && r.next.regs[ins.d] == st.mem[ins.addr]
      && (forall i :: 0 <= i < RegisterCount && i != ins.d ==> r.next.regs[i] == st.regs[i])
      && r.next.mem == st.mem && r.next.input == st.input && r.next.output == st.output
  {
  }

  /** Opcode 8 at `FF`: one input line is consumed into cell `FF` and copied to
      register `d`; with no line left the read fails and nothing changes. */
  lemma LoadFromPort(st: State, ins: Instruction)
    requires Fetching(st, ins) && ins.opcode == '8' && ins.addr == Port
    ensures st.input == [] ==> Exec(st) == Transition(Failed(EndOfInput(st.pc)), st)
    ensures st.input != [] ==> var r := Exec(st);
      && r.status == Running && r.next.pc == st.pc + 1
      && r.next.mem == st.mem[Port := st.input[0]]
      && r.next.regs[ins.d] == st.input[0]
      && (forall i :: 0 <= i < RegisterCount && i != ins.d ==> r.next.regs[i] == st.regs[i])
      && r.next.input == st.input[1..] && r.next.output == st.output
  {
  }

  /** Opcode 9: only cell `addr` changes; the display shows the value's text and
      decimal value exactly when `addr` is `FF`. */
  lemma StoreDirect(st: State, ins: Instruction)
    requires Fetching(st, ins) && ins.opcode == '9'
    ensures var r := Exec(st); var v := st.regs[ins.d];
      && r.status == Running && r.next.pc == st.pc + 1
      && r.next.mem[ins.addr] == v
      && (forall i :: 0 <= i < CellCount && i != ins.addr ==> r.next.mem[i] == st.mem[i])
      && r.next.regs == st.regs && r.next.input == st.input
      && (ins.addr == Port ==> r.next.output == st.output + [Event(Hex(v, 4), v)])
      && (ins.addr != Port ==> r.next.output == st.output)
  {
  }

  /** What the display reports is consistent: the decimal value is `int(text, 16)`. */
  lemma DisplayConsistent(v: int)
    ensures ParseHex(Display(v).text) == Some(Display(v).value)
  {
    HexRoundTrip(v, 4);
  }

  /** Opcode A reads the cell named by the low byte of register `t`'s value. */
  lemma LoadIndirect(st: State, ins: Instruction)
    requires Fetching(st, ins) && ins.opcode == 'A'
    ensures var r := Exec(st); var v := st.regs[ins.t];
      && r.status == Running && r.next.pc == st.pc + 1
      && r.next.regs[ins.d] == st.mem[(if v < 0 then -v else v) % CellCount]
      && (forall i :: 0 <= i < RegisterCount && i != ins.d ==> r.next.regs[i] == st.regs[i])
      && r.next.mem == st.mem && r.next.input == st.input && r.next.output == st.output
  {
  }

  /** Opcode B writes register `d` to the cell named by the low byte of register
      `t`'s value, displaying it when that cell is `FF`. */
  lemma StoreIndirect(st: State, ins: Instruction)
    requires Fetching(st, ins) && ins.opcode == 'B'
    ensures var r := Exec(st); var v := st.regs[ins.t]; var cell := (if v < 0 then -v else v) % CellCount;
      && r.status == Running && r.next.pc == st.pc + 1
      && r.next.mem[cell] == st.regs[ins.d]
      && (forall i :: 0 <= i < CellCount && i != cell ==> r.next.mem[i] == st.mem[i])
      && r.next.regs == st.regs && r.next.input == st.input
      && r.next.output == if cell == Port then st.output + [Display(st.regs[ins.d])] else st.output
  {
  }

  // ----- Control, opcodes 0 and C-F -----

  /** Opcode 0 halts and changes nothing. */
  lemma HaltChangesNothing(st: State, ins: Instruction)
    requires Fetching(st, ins) && ins.opcode == '0'
    ensures Exec(st) == Transition(Halted, st)
  {
  }

  /** A negative word (text `-hhh` or `-hhhh`) matches no opcode: only the counter moves. */
  lemma NegativeWordSkipped(st: State)
    requires Valid(st) && 0 <= st.pc < CellCount && st.mem[st.pc] < 0
    ensures Exec(st) == Transition(Running, st.(pc := st.pc + 1))
  {
  }

  /** C and D move the next fetch to exactly `addr` when taken and to the next cell
      otherwise; C tests for zero, D for a positive unsigned value. Nothing else changes. */
  lemma Branches(st: State, ins: Instruction)
    requires Fetching(st, ins) && (ins.opcode == 'C' || ins.opcode == 'D')
    ensures var taken := if ins.opcode == 'C' then st.regs[ins.d] == 0 else st.regs[ins.d] > 0;
      Exec(st) == Transition(Running, st.(pc := if taken then ins.addr else st.pc + 1))
  {
  }

  /** D is taken on `FFFF`: the test is on the unsigned value, not on -1. */
  lemma BranchPositiveOnFFFF(st: State, ins: Instruction)
    requires Fetching(st, ins) && ins.opcode == 'D' && st.regs[ins.d] == 0xFFFF
    ensures Exec(st).next.pc == ins.addr
  {
  }

  /** `C120` on a zero register 1 fetches next at address 20, not 21; on `0001` it falls through. */
  lemma BranchZeroExample(st: State)
    requires Valid(st) && 0 <= st.pc < CellCount && st.mem[st.pc] == 0xC120
    ensures st.regs[1] == 0 ==> Exec(st).next.pc == 0x20
    ensures st.regs[1] == 1 ==> Exec(st).next.pc == st.pc + 1
  {
  }

  /** Opcode E: the next fetch is at register `d`'s value plus one. */
  lemma JumpIndirect(st: State, ins: Instruction)
    requires Fetching(st, ins) && ins.opcode == 'E'
    ensures Exec(st) == Transition(Running, st.(pc := st.regs[ins.d] + 1))
  {
  }

  /** Opcode F: register `d` takes the address of the F itself and the next fetch is `addr`. */
  lemma Call(st: State, ins: Instruction)
    requires Fetching(st, ins) && ins.opcode == 'F'
    ensures var r := Exec(st);
      && r.status == Running && r.next.pc == ins.addr
      && r.next.regs == st.regs[ins.d := st.pc]
      && r.next.mem == st.mem && r.next.input == st.input && r.next.output == st.output
  {
  }

  /** A call `F d addr` whose target holds `E d` returns to the instruction after the call. */
  lemma CallReturn(st: State, ins: Instruction)
    requires Fetching(st, ins) && ins.opcode == 'F'
    requires Decode(st.mem[ins.addr]).opcode == 'E' && Decode(st.mem[ins.addr]).d == ins.d
    ensures var mid := Exec(st).next;
      0 <= mid.pc < CellCount && Exec(mid).next.pc == st.pc + 1
  {
    Call(st, ins);
    var mid := Exec(st).next;
    JumpIndirect(mid, Decode(mid.mem[mid.pc]));
  }

  // ----- The run loop -----

  /** The loop ends only as `main` ends it: after opcode 0 at the final counter, with
      the counter past `FF`, on a fetch at a counter that names no cell, or when a
      step raises; otherwise it is still running when the budget is spent, with a
      counter that is not past `FF` (it may be negative after an `E` through a
      register holding -2 or less, and the next fetch would then fail). */
  lemma {:induction false} RunStopsAt(st: State, fuel: nat)
    requires Valid(st)
    ensures var f := Run(st, fuel);
      && (f.outcome == Halt ==> 0 <= f.state.pc < CellCount && Decode(f.state.mem[f.state.pc]).opcode == '0')
      && (f.outcome == PastEnd ==> f.state.pc > 255)
      && (f.outcome.Abort? && f.outcome.error.BadFetch? ==> f.outcome.error.at == f.state.pc && !(0 <= f.state.pc < CellCount))
      && (f.outcome == OutOfFuel ==> f.state.pc <= 255 || fuel == 0)
    decreases fuel
  {
    if fuel > 0 && 0 <= st.pc < CellCount {
      var t := Exec(st);
      if t.status == Running && t.next.pc < CellCount {
        RunStopsAt(t.next, fuel - 1);
      }
    }
  }

  /** Once the loop has stopped, a larger step budget changes nothing. */
  lemma {:induction false} RunFuelIrrelevant(st: State, n: nat, m: nat)
    requires Valid(st) && n <= m && Run(st, n).outcome != OutOfFuel
    ensures Run(st, m) == Run(st, n)
    decreases n
  {
    if 0 <= st.pc < CellCount {
      var t := Exec(st);
      if t.status == Running && t.next.pc < CellCount {
        RunFuelIrrelevant(t.next, n - 1, m - 1);
      }
    }
  }

  /** Running `n` steps and then `m` more is running `n + m` steps. */
  lemma {:induction false} RunSplit(st: State, n: nat, m: nat)
    requires Valid(st) && Run(st, n).outcome == OutOfFuel
    ensures Run(st, n + m) == Run(Run(st, n).state, m)
    decreases n
  {
    if n > 0 {
      var t := Exec(st);
      RunSplit(t.next, n - 1, m);
    }
  }

  // ----- Programs -----

  /** A step that neither stops nor leaves the memory hands the rest of the budget on. */
  lemma RunContinues(st: State, fuel: nat)
    requires Valid(st) && fuel > 0 && 0 <= st.pc < CellCount
    requires Exec(st).status == Running && Exec(st).next.pc < CellCount
    ensures Run(st, fuel) == Run(Exec(st).next, fuel - 1)
  {
  }

  /** A step that halts ends the run there. */
  lemma RunHalts(st: State, fuel: nat)
    requires Valid(st) && fuel > 0 && 0 <= st.pc < CellCount && Exec(st).status == Halted
    ensures Run(st, fuel) == Final(Halt, st)
  {
  }

  /** A running step that leaves the counter past `FF` ends the run there. */
  lemma RunPastEnd(st: State, fuel: nat)
    requires Valid(st) && fuel > 0 && 0 <= st.pc < CellCount
    requires Exec(st).status == Running && Exec(st).next.pc > 255
    ensures Run(st, fuel) == Final(PastEnd, Exec(st).next)
  {
  }

  /** A step that raises ends the run with that exception and the state after it. */
  lemma RunAborts(st: State, fuel: nat)
    requires Valid(st) && fuel > 0 && 0 <= st.pc < CellCount && Exec(st).status.Failed?
    ensures Run(st, fuel) == Final(Abort(Exec(st).status.error), Exec(st).next)
  {
  }

  /** The loader's memory for one or two entry lines on zeroed memory. */
  lemma LoadedOne(line: string)
    requires IsEntry(line)
    ensures Load(seq(CellCount, _ => 0), [line]) == seq(CellCount, _ => 0)[EntryCell(line) := EntryWord(line)]
  {
    assert [line][..0] == [];
  }

  lemma LoadedTwo(a: string, b: string)
    requires IsEntry(a) && IsEntry(b)
    ensures Load(seq(CellCount, _ => 0), [a, b]) == seq(CellCount, _ => 0)[EntryCell(a) := EntryWord(a)][EntryCell(b) := EntryWord(b)]
  {
    assert [a, b][..1] == [a];
    LoadedOne(a);
  }

  /** A program that is one halt at address 10 stops at the first fetch and changes nothing. */
  lemma HaltProgram(input: seq<int>)
    requires forall i :: 0 <= i < |input| ==> IsInputWord(input[i])
    ensures Run(Initial(["10: 0000"], input), 1) == Final(Halt, Initial(["10: 0000"], input))
    ensures Initial(["10: 0000"], input).mem == seq(CellCount, _ => 0)
  {
    var line := "10: 0000";
    assert IsEntry(line);
    LoadedOne(line);
    var zeros := seq(CellCount, _ => 0);
    assert EntryCell(line) == 16 && EntryWord(line) == 0;
    assert zeros[16 := 0] == zeros;
  }

  /** The word `7120` puts `0020` in register 1 and changes nothing else. */
  lemma Word7120(st: State)
    requires Valid(st) && 0 <= st.pc < CellCount && st.mem[st.pc] == 0x7120
    ensures Exec(st) == Transition(Running, st.(regs := st.regs[1 := 0x20], pc := st.pc + 1))
  {
    LoadImmediate(st, Decode(0x7120));
  }

  /** The word `0000` halts. */
  lemma Word0000(st: State)
    requires Valid(st) && 0 <= st.pc < CellCount && st.mem[st.pc] == 0
    ensures Exec(st) == Transition(Halted, st)
  {
    HaltChangesNothing(st, Decode(0));
  }

  /** `7120` at the counter followed by `0000`: one step leaves `0020` in register
      1, the second halts there. */
  lemma LoadImmediateThenHalt(st: State)
    requires Valid(st) && 0 <= st.pc < CellCount - 1
    requires st.mem[st.pc] == 0x7120 && st.mem[st.pc + 1] == 0
    ensures Run(st, 1).outcome == OutOfFuel
    ensures Run(st, 2).outcome == Halt
    ensures Run(st, 2).state == st.(regs := st.regs[1 := 0x20], pc := st.pc + 1)
  {
    var s1 := st.(regs := st.regs[1 := 0x20], pc := st.pc + 1);
    Word7120(st);
    Word0000(s1);
    RunContinues(st, 1);
    RunContinues(st, 2);
    RunHalts(s1, 1);
  }

  /** `10: 7120`, `11: 0000` leaves `0020` in register 1 and halts at the second fetch. */
  lemma LoadImmediateProgram(input: seq<int>)
    requires forall i :: 0 <= i < |input| ==> IsInputWord(input[i])
    ensures var st := Initial(["10: 7120", "11: 0000"], input);
      && Run(st, 1).outcome == OutOfFuel
      && Run(st, 2).outcome == Halt
      && Run(st, 2).state.regs == st.regs[1 := 0x20]
      && Run(st, 2).state.pc == 0x11
  {
    var a, b := "10: 7120", "11: 0000";
    assert IsEntry(a) && IsEntry(b);
    LoadedTwo(a, b);
    assert EntryCell(a) == 16 && EntryWord(a) == 0x7120;
    assert EntryCell(b) == 17 && EntryWord(b) == 0;
    var st := Initial([a, b], input);
    assert st.mem[16] == 0x7120 && st.mem[17] == 0;
    LoadImmediateThenHalt(st);
  }

  /** The word `C0FF` on a zero register 0 jumps to `FF`. */
  lemma WordC0FF(st: State)
    requires Valid(st) && 0 <= st.pc < CellCount && st.mem[st.pc] == 0xC0FF && st.regs[0] == 0
    ensures Exec(st) == Transition(Running, st.(pc := Port))
  {
    Branches(st, Decode(0xC0FF));
  }

  /** The word `7000` clears register 0 and moves the counter on. */
  lemma Word7000(st: State)
    requires Valid(st) && 0 <= st.pc < CellCount && st.mem[st.pc] == 0x7000
    ensures Exec(st) == Transition(Running, st.(regs := st.regs[0 := 0], pc := st.pc + 1))
  {
    LoadImmediate(st, Decode(0x7000));
  }

  /** `C0FF` on a zero register 0 jumps to `FF`; a `7000` there leaves the counter
      at 256, which ends the run without a halt. */
  lemma JumpPastEnd(st: State, fuel: nat)
    requires Valid(st) && 0 <= st.pc < CellCount && fuel >= 2
    requires st.mem[st.pc] == 0xC0FF && st.regs[0] == 0 && st.mem[Port] == 0x7000
    ensures Run(st, fuel).outcome == PastEnd
  {
    var s1 := st.(pc := Port);
    WordC0FF(st);
    RunContinues(st, fuel);
    Word7000(s1);
  }

  /** The counter passing `FF` ends the run without a halt: `C0FF` jumps to `FF`,
      whose `7000` leaves the counter at 256. */
  lemma PastEndProgram(input: seq<int>)
    requires forall i :: 0 <= i < |input| ==> IsInputWord(input[i])
    ensures Run(Initial(["10: C0FF", "FF: 7000"], input), 3).outcome == PastEnd
  {
    var a, b := "10: C0FF", "FF: 7000";
    assert IsEntry(a) && IsEntry(b);
    LoadedTwo(a, b);
    assert EntryCell(a) == 16 && EntryWord(a) == 0xC0FF;
    assert EntryCell(b) == 255 && EntryWord(b) == 0x7000;
    var st := Initial([a, b], input);
    assert st.mem[16] == 0xC0FF && st.mem[255] == 0x7000;
    JumpPastEnd(st, 3);
  }

  // ----- The loader -----

  /** A line writes cell `a` when it is an entry naming `a`. */
  predicate Writes(line: string, a: int) {
    IsEntry(line) && EntryCell(line) == a
  }

  /** After loading, a cell that no entry names keeps its value, whatever other lines say. */
  lemma {:induction false} LoadUntouched(mem: seq<int>, lines: seq<string>, a: int)
    requires |mem| == CellCount && 0 <= a < CellCount
    requires forall i :: 0 <= i < |lines| ==> !Writes(lines[i], a)
    ensures Load(mem, lines)[a] == mem[a]
    decreases |lines|
  {
    if lines != [] {
      var init := lines[..|lines| - 1];
      assert forall i :: 0 <= i < |init| ==> init[i] == lines[i];
      LoadUntouched(mem, init, a);
      assert !Writes(lines[|lines| - 1], a);
    }
  }

  /** After loading, a cell holds the word of the last entry naming it. */
  lemma {:induction false} LoadLastWins(mem: seq<int>, lines: seq<string>, i: int, a: int)
    requires |mem| == CellCount && 0 <= a < CellCount
    requires 0 <= i < |lines| && Writes(lines[i], a)
    requires forall j :: i < j < |lines| ==> !Writes(lines[j], a)
    ensures Load(mem, lines)[a] == EntryWord(lines[i])
    decreases |lines|
  {
    var init := lines[..|lines| - 1];
    if i < |lines| - 1 {
      assert init[i] == lines[i];
      assert forall j :: i < j < |init| ==> init[j] == lines[j];
      LoadLastWins(mem, init, i, a);
      assert !Writes(lines[|lines| - 1], a);
    }
  }
}
