/**
 The interpreter's global state and the procedures that mutate it: the register
 file `R`, the memory `M` and the counter `PC` become the fields of one
 `Machine`, and `execute`, `store_register`, `store_memory`, the loader loop and
 the run loop become its methods. `Step`, `LoadProgram`, `Run` and the
 constructor are proved against the functions of `Semantics`; `StoreRegister`,
 `StoreMemory` and `MathOp` state their new state directly. The `FF` prompt reads from `input`, the lines still to be typed,
 and the `FF` display appends to `output`.
 */
module Simulator {
  import opened HexText
  import opened Semantics

  class Machine {
    var pc: int
    const regs: array<int>
    const mem: array<int>
    var input: seq<int>
    var output: seq<Event>

    ghost predicate Valid()
      reads this, regs, mem
    {
      regs != mem && regs.Length == RegisterCount && mem.Length == CellCount && Semantics.Valid(Snapshot())
    }

    /** The machine's state as a value. */
    function Snapshot(): State
      reads this, regs, mem
    {
      State(pc, regs[..], mem[..], input, output)
    }

    /** The start-up code: every register and every cell set to `0000`, `PC = 16`. */
    constructor (stdin: seq<int>)
      requires forall i :: 0 <= i < |stdin| ==> IsInputWord(stdin[i])
      ensures Valid() && fresh(regs) && fresh(mem)
      ensures Snapshot() == Initial([], stdin)
    {
      var r := new int[RegisterCount];
      for i := 0 to RegisterCount
        invariant forall k :: 0 <= k < i ==> r[k] == 0
      {
        r[i] := 0;
      }
      var m := new int[CellCount];
      for i := 0 to CellCount
        modifies m
        invariant forall k :: 0 <= k < i ==> m[k] == 0
      {
        m[i] := 0;
      }
      regs, mem := r, m;
      pc, input, output := StartPc, stdin, [];
      assert r[..] == seq(RegisterCount, _ => 0);
      assert m[..] == seq(CellCount, _ => 0);
    }

    /** The loader loop of `main`: every line of the program file that matches the
        entry pattern stores its word at its cell; other lines are skipped. */
    method LoadProgram(lines: seq<string>)
      requires Valid()
      modifies mem
      ensures Valid()
      ensures mem[..] == Load(old(mem[..]), lines)
    {
      for i := 0 to |lines|
        invariant Valid()
        invariant mem[..] == Load(old(mem[..]), lines[..i])
      {
        assert lines[..i + 1][..i] == lines[..i];
        var line := lines[i];
        if IsEntry(line) {
          mem[EntryCell(line)] := EntryWord(line);
        }
      }
      assert lines[..|lines|] == lines;
    }

    /** `store_register`: its register-0 guard compares a one-character key with
        `'00'` and never fires, so every register, register 0 included, takes the value. */
    method StoreRegister(d: int, v: int)
      requires 0 <= d < regs.Length
      modifies regs
      ensures regs[..] == old(regs[..])[d := v]
    {
      regs[d] := v;
    }

    /** `store_memory`: the cell takes the value and a write to `FF` is displayed. */
    method StoreMemory(cell: int, v: int)
      requires 0 <= cell < mem.Length
      modifies this`output, mem
      ensures mem[..] == old(mem[..])[cell := v]
      ensures output == if cell == Port then old(output) + [Display(v)] else old(output)
    {
      if cell == Port {
        output := output + [Display(v)];
      }
      mem[cell] := v;
    }

    /** `load_memory`: the key `addr[-2:]`, the last two characters of the
        register's text, reads back as the cell number whose word is returned. */
    function LoadMemory(v: int): (w: int)
      reads mem
      requires mem.Length == CellCount
      ensures ParseHex(LastTwo(Hex(v, 4))) == Some(CellOf(v)) && w == mem[CellOf(v)]
    {
      KeyNamesCell(v);
      mem[CellOf(v)]
    }

    /** `math_op`: a result outside -32768..32767 raises and changes nothing,
        any other result is written to register `d`. */
    method MathOp(d: int, value: int) returns (status: Status)
      requires 0 <= d < regs.Length
      modifies regs
      ensures status == if InResultRange(value) then Running else Failed(Overflow(pc, value))
      ensures regs[..] == if InResultRange(value) then old(regs[..])[d := value] else old(regs[..])
    {
      if value < MinResult || MaxResult < value {
        return Failed(Overflow(pc, value));
      }
      StoreRegister(d, value);
      status := Running;
    }

    /** `execute`: fetch the word at `PC`, decode it and dispatch on its opcode
        character; every step that neither halts nor raises ends with `PC += 1`. */
    method Step() returns (status: Status)
      requires Valid() && 0 <= pc < CellCount
      modifies this, regs, mem
      ensures Valid()
      ensures Transition(status, Snapshot()) == Exec(old(Snapshot()))
    {
      var ins := Decode(mem[pc]);
      if IsAluOp(ins.opcode) {
        status := Arithmetic(ins);
      } else if IsTransferOp(ins.opcode) {
        status := Transfer(ins);
      } else {
        status := Control(ins);
      }
      if status == Running {
        pc := pc + 1;
      }
    }

    /** The ALU branches of `execute`; the final `PC += 1` is left to `Step`. */
    method Arithmetic(ins: Instruction) returns (status: Status)
      requires Valid() && 0 <= pc < CellCount && ins == Decode(mem[pc]) && IsAluOp(ins.opcode)
      modifies regs
      ensures Valid()
      ensures status == Running ==> ExecAlu(old(Snapshot()), ins) == Transition(Running, Snapshot().(pc := pc + 1))
      ensures status != Running ==> ExecAlu(old(Snapshot()), ins) == Transition(status, Snapshot())
    {
      var a, b := regs[ins.s], regs[ins.t];
      var r := AluResult(ins.opcode, a, b);
      if r.None? {
        return Failed(NegativeShift(pc));
      }
      status := MathOp(ins.d, r.value);
    }

    /** The register and memory moves of `execute`. */
    method Transfer(ins: Instruction) returns (status: Status)
      requires Valid() && 0 <= pc < CellCount && ins == Decode(mem[pc]) && IsTransferOp(ins.opcode)
      modifies this, regs, mem
      ensures Valid()
      ensures status == Running ==> ExecTransfer(old(Snapshot()), ins) == Transition(Running, Snapshot().(pc := pc + 1))
      ensures status != Running ==> ExecTransfer(old(Snapshot()), ins) == Transition(status, Snapshot())
    {
      status := Running;
      if ins.opcode == '7' {
        StoreRegister(ins.d, ins.addr);
      } else if ins.opcode == '8' {
        status := LoadRegister(ins);
      } else if ins.opcode == '9' {
        StoreMemory(ins.addr, regs[ins.d]);
      } else {
        Indirect(ins);
      }
    }

    /** Opcodes A and B: the cell is the one register `t`'s text names. */
    method Indirect(ins: Instruction)
      requires Valid() && 0 <= pc < CellCount && ins == Decode(mem[pc]) && (ins.opcode == 'A' || ins.opcode == 'B')
      modifies this, regs, mem
      ensures Valid()
      ensures ExecTransfer(old(Snapshot()), ins) == Transition(Running, Snapshot().(pc := pc + 1))
    {
      if ins.opcode == 'A' {
        var w := LoadMemory(regs[ins.t]);
        StoreRegister(ins.d, w);
      } else {
        StoreMemory(CellOf(regs[ins.t]), regs[ins.d]);
      }
    }

    /** Opcode 8: at `FF` one input line is first stored in the cell, then the
        cell is copied into register `d`. */
    method LoadRegister(ins: Instruction) returns (status: Status)
      requires Valid() && 0 <= pc < CellCount && ins == Decode(mem[pc]) && ins.opcode == '8'
      modifies this, regs, mem
      ensures Valid() && pc == old(pc)
      ensures status == Running ==> ExecTransfer(old(Snapshot()), ins) == Transition(Running, Snapshot().(pc := pc + 1))
      ensures status != Running ==> ExecTransfer(old(Snapshot()), ins) == Transition(status, Snapshot())
    {
      if ins.addr == Port {
        if input == [] {
          return Failed(EndOfInput(pc));
        }
        mem[Port] := input[0];
        input := input[1..];
      }
      StoreRegister(ins.d, mem[ins.addr]);
      status := Running;
    }

    /** The halt and jump branches of `execute`. C, D and F set `PC` one short of
        the target, so that the final `PC += 1` lands on it. */
    method Control(ins: Instruction) returns (status: Status)
      requires Valid() && 0 <= pc < CellCount && ins == Decode(mem[pc]) && !IsAluOp(ins.opcode) && !IsTransferOp(ins.opcode)
      modifies this, regs
      ensures Valid()
      ensures status == Running ==> ExecControl(old(Snapshot()), ins) == Transition(Running, Snapshot().(pc := pc + 1))
      ensures status != Running ==> ExecControl(old(Snapshot()), ins) == Transition(status, Snapshot())
    {
      status := Running;
      if ins.opcode == '0' {
        return Halted;
      } else if ins.opcode == 'C' {
        if regs[ins.d] == 0 {
          pc := ins.addr - 1;
        }
      } else if ins.opcode == 'D' {
        if regs[ins.d] > 0 {
          pc := ins.addr - 1;
        }
      } else if ins.opcode == 'E' {
        pc := regs[ins.d];
      } else if ins.opcode == 'F' {
        StoreRegister(ins.d, pc);
        pc := ins.addr - 1;
      }
    }

    /** The run loop of `main`, given a budget of at most `fuel` steps. */
    method Run(fuel: nat) returns (outcome: Outcome)
      requires Valid()
      modifies this, regs, mem
      ensures Valid()
      ensures Final(outcome, Snapshot()) == Semantics.Run(old(Snapshot()), fuel)
    {
      var left := fuel;
      while left > 0
        invariant Valid()
        invariant Semantics.Run(Snapshot(), left) == Semantics.Run(old(Snapshot()), fuel)
        decreases left
      {
        if pc < 0 || pc >= CellCount {
          return Abort(BadFetch(pc));
        }
        var status := Step();
        if status == Halted {
          return Halt;
        }
        if status.Failed? {
          return Abort(status.error);
        }
        if pc >= CellCount {
          return PastEnd;
        }
        left := left - 1;
      }
      outcome := OutOfFuel;
    }
  }
}
