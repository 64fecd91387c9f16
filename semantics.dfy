/**
 The meaning of one fetch-decode-execute step of the toy machine and of the run
 loop around it, as pure functions over a machine state. Register and cell
 contents are the integers their texts stand for (`int(text, 16)`); the lemmas of
 `HexText` show that the texts the interpreter stores are exactly `Hex(v, 4)`.
 `Machine` in machine.dfy implements these functions with arrays updated in place.
 */
module Semantics {
  import opened HexText

  const RegisterCount := 16
  const CellCount := 256
  /** The memory-mapped I/O cell `FF`. */
  const Port := 0xFF
  /** The program counter's initial value (`PC = 16`). */
  const StartPc := 16
  /** The range `math_op` accepts. */
  const MinResult := -32768
  const MaxResult := 32767

  /** What a register or cell can hold: a four-digit word loaded or typed in
      (0..FFFF) or an ALU result, which may be negative down to -32768. */
  predicate IsWord(v: int) {
    MinResult <= v <= 0xFFFF
  }

  /** A word typed at the `FF` prompt. */
  predicate IsInputWord(v: int) {
    0 <= v <= 0xFFFF
  }

  /** One line printed by a write to `FF`: the stored text and its `int(text, 16)`. */
  datatype Event = Event(text: string, value: int)

  datatype State = State(pc: int, regs: seq<int>, mem: seq<int>, input: seq<int>, output: seq<Event>)

  predicate Valid(st: State) {
    && |st.regs| == RegisterCount
    && |st.mem| == CellCount
    && (forall i :: 0 <= i < |st.regs| ==> IsWord(st.regs[i]))
    && (forall i :: 0 <= i < |st.mem| ==> IsWord(st.mem[i]))
    && (forall i :: 0 <= i < |st.input| ==> IsInputWord(st.input[i]))
  }

  /** The fatal conditions: the range exception of `math_op`, Python's ValueError for
      a negative shift count, end of input at the `FF` prompt, and the KeyError of a
      fetch at a counter that names no cell. */
  datatype Error = Overflow(at: int, value: int) | NegativeShift(at: int) | EndOfInput(at: int) | BadFetch(at: int)

  /** What one call of `execute` does: return False, return True, or raise. */
  datatype Status = Running | Halted | Failed(error: Error)

  datatype Transition = Transition(status: Status, next: State)

  /** The fields of an instruction word: its first character, the register digits
      `d`, `s`, `t`, and the byte `addr` spelled by the last two characters. */
  datatype Instruction = Instruction(opcode: char, d: int, s: int, t: int, addr: int)

  /** The line printed by `store_memory` at `FF`: `str(value).zfill(4)` and its
      `int(value, 16)`. */
  function Display(v: int): (e: Event)
    ensures e.text == Hex(v, 4) && e.value == v
  {
    HexShape(v, 4);
    HexRoundTrip(v, 4);
    var text := ZFill(Hex(v, 4), 4);
    Event(text, ParseHex(text).value)
  }

  /** The fields of a fetched word. For a non-negative word they are its four
      base-16 digits and its low byte; a negative word has opcode `-`, and its
      other fields are never used. `SplitText` is the same split done on the text,
      as `execute` does it; `DecodeMatchesText` shows the two agree. */
  function Decode(w: int): (ins: Instruction)
    requires IsWord(w)
    ensures 0 <= ins.d < RegisterCount && 0 <= ins.s < RegisterCount && 0 <= ins.t < RegisterCount
    ensures 0 <= ins.addr < CellCount
    ensures (ins.opcode == '-') == (w < 0)
  {
    if w < 0 then Instruction('-', 0, 0, 0, 0)
    else Instruction(Digit(w / 4096), w / 256 % 16, w / 16 % 16, w % 16, w % 256)
  }

  /** `instruction[0]`, `[1]`, `[2]`, `[3]` and `[2:4]` of the stored text
      `hex(w, 4)`, with the register digits and the address read as numbers. */
  function SplitText(w: int): (ins: Instruction)
    ensures 0 <= ins.d < RegisterCount && 0 <= ins.addr < CellCount
  {
    var text := Hex(w, 4);
    HexShape(w, 4);
    assert text[1..][0] == text[1] && text[1..][1] == text[2] && text[1..][2] == text[3];
    var addrText := text[2..4];
    assert addrText == text[1..][1..3];
    ValueOfTwo(addrText);
    Instruction(text[0], DigitValue(text[1]), DigitValue(text[2]), DigitValue(text[3]), ValueOf(addrText))
  }

  /** Decoding by digits is decoding by text: the same opcode character for every
      word, and the same fields for every non-negative one. */
  lemma DecodeMatchesText(w: int)
    requires IsWord(w)
    ensures SplitText(w).opcode == Decode(w).opcode
    ensures w >= 0 ==> SplitText(w) == Decode(w)
  {
    HexShape(w, 4);
    if w >= 0 {
      WordDigits(w);
      ValueOfTwo(Hex(w, 4)[2..4]);
    }
  }

  /** The cell that `load_memory` and `store_memory` reach through a register
      value: the low byte of its magnitude (`KeyOf` is the text of that key). */
  function CellOf(v: int): (c: int)
    ensures 0 <= c < CellCount
  {
    (if v < 0 then -v else v) % CellCount
  }

  /** `str(addr).zfill(2)[-2:]` in `store_memory` and `addr[-2:]` in `load_memory`,
      on a register's text `hex(v, 4)`. */
  function KeyOf(v: int): string
  {
    LastTwo(ZFill(Hex(v, 4), 2))
  }

  /** The key taken from a register's text names the cell `CellOf` gives: `-005`
      names `05`, `-8000` names `00`, `01FF` names `FF`. */
  lemma KeyNamesCell(v: int)
    ensures KeyOf(v) == Hex(CellOf(v), 2)
    ensures ParseHex(KeyOf(v)) == Some(CellOf(v))
    ensures KeyOf(v) == LastTwo(Hex(v, 4))
  {
    HexShape(v, 4);
    LowByteKey(v);
  }

  function Pow2(k: nat): (r: nat)
    ensures r >= 1
  {
    if k == 0 then 1 else 2 * Pow2(k - 1)
  }

  /** Python's `&` on integers: bitwise on the infinite two's-complement form,
      so the result is negative exactly when both operands are. */
  function BitAnd(a: int, b: int): (r: int)
    ensures r < 0 <==> a < 0 && b < 0
    decreases (if a < 0 then -a else a) + (if b < 0 then -b else b)
  {
    if (a == 0 || a == -1) && (b == 0 || b == -1) then (if a == -1 && b == -1 then -1 else 0)
    else 2 * BitAnd(a / 2, b / 2) + (if a % 2 == 1 && b % 2 == 1 then 1 else 0)
  }

  /** Python's `^` on integers: the result is negative exactly when one operand is. */
  function BitXor(a: int, b: int): (r: int)
    ensures r < 0 <==> (a < 0) != (b < 0)
    decreases (if a < 0 then -a else a) + (if b < 0 then -b else b)
  {
    if (a == 0 || a == -1) && (b == 0 || b == -1) then (if (a == -1) != (b == -1) then -1 else 0)
    else 2 * BitXor(a / 2, b / 2) + (if a % 2 != b % 2 then 1 else 0)
  }

  /** Opcodes 1-6, computed by `math_op`. */
  predicate IsAluOp(c: char) {
    c == '1' || c == '2' || c == '3' || c == '4' || c == '5' || c == '6'
  }

  /** Opcodes 7, 8, 9, A and B, the moves between registers and memory. */
  predicate IsTransferOp(c: char) {
    c == '7' || c == '8' || c == '9' || c == 'A' || c == 'B'
  }

  /** The raw result of ALU opcodes 1-6 on the operands `int(R[s], 16)` and
      `int(R[t], 16)`; `None` where Python refuses a negative shift count.
      Dafny's `/` by a positive divisor floors, as Python's `>>` does. */
  function AluResult(opcode: char, a: int, b: int): (r: Option<int>)
    requires IsAluOp(opcode)
    ensures r.None? <==> (opcode == '5' || opcode == '6') && b < 0
  {
    if opcode == '1' then Some(a + b)
    else if opcode == '2' then Some(a - b)
    else if opcode == '3' then Some(BitAnd(a, b))
    else if opcode == '4' then Some(BitXor(a, b))
    else if b < 0 then None
    else if opcode == '5' then Some(a * Pow2(b))
    else Some(a / Pow2(b))
  }

  predicate InResultRange(v: int) {
    MinResult <= v <= MaxResult
  }

  /** The step ends normally and the next fetch is at `target`. */
  function JumpTo(st: State, target: int): Transition {
    Transition(Running, st.(pc := target))
  }

  /** The step ends normally and the next fetch is the following cell. */
  function Proceed(st: State): Transition {
    JumpTo(st, st.pc + 1)
  }

  /** `store_memory`: the cell takes the value; a write to `FF` is also printed. */
  function Store(st: State, cell: int, v: int): State
    requires 0 <= cell < |st.mem|
  {
    st.(mem := st.mem[cell := v],
        output := if cell == Port then st.output + [Display(v)] else st.output)
  }

  /** One call of `execute` on a state whose counter names a cell. */
  function Exec(st: State): (r: Transition)
    requires Valid(st) && 0 <= st.pc < CellCount
    ensures Valid(r.next)
    ensures r.status != Running ==> r.next == st
    ensures r.status == Halted <==> Decode(st.mem[st.pc]).opcode == '0'
  {
    var ins := Decode(st.mem[st.pc]);
    if IsAluOp(ins.opcode) then ExecAlu(st, ins)
    else if IsTransferOp(ins.opcode) then ExecTransfer(st, ins)
    else ExecControl(st, ins)
  }

  /** Opcodes 1-6: compute on the unsigned operands, then `math_op`. */
  function ExecAlu(st: State, ins: Instruction): (r: Transition)
    requires Valid(st) && 0 <= st.pc < CellCount && ins == Decode(st.mem[st.pc]) && IsAluOp(ins.opcode)
    ensures Valid(r.next)
    ensures r.status != Running ==> r.next == st
  {
    match AluResult(ins.opcode, st.regs[ins.s], st.regs[ins.t])
    case None => Transition(Failed(NegativeShift(st.pc)), st)
    case Some(v) =>
      if !InResultRange(v) then Transition(Failed(Overflow(st.pc, v)), st)
      else Proceed(st.(regs := st.regs[ins.d := v]))
  }

  /** Opcodes 7, 8, 9, A and B: moves between registers and memory. */
  function ExecTransfer(st: State, ins: Instruction): (r: Transition)
    requires Valid(st) && 0 <= st.pc < CellCount && ins == Decode(st.mem[st.pc]) && IsTransferOp(ins.opcode)
    ensures Valid(r.next)
    ensures r.status != Running ==> r.next == st
  {
    if ins.opcode == '7' then
      Proceed(st.(regs := st.regs[ins.d := ins.addr]))
    else if ins.opcode == '8' then
      if ins.addr != Port then
        Proceed(st.(regs := st.regs[ins.d := st.mem[ins.addr]]))
      else if st.input == [] then
        Transition(Failed(EndOfInput(st.pc)), st)
      else
        Proceed(st.(mem := st.mem[Port := st.input[0]],
                    regs := st.regs[ins.d := st.input[0]],
                    input := st.input[1..]))
    else if ins.opcode == '9' then
      Proceed(Store(st, ins.addr, st.regs[ins.d]))
    else if ins.opcode == 'A' then
      Proceed(st.(regs := st.regs[ins.d := st.mem[CellOf(st.regs[ins.t])]]))
    else
      Proceed(Store(st, CellOf(st.regs[ins.t]), st.regs[ins.d]))
  }

  /** Opcode 0, the jumps C, D, E and F, and a word whose opcode character is `-`. */
  function ExecControl(st: State, ins: Instruction): (r: Transition)
    requires Valid(st) && 0 <= st.pc < CellCount && ins == Decode(st.mem[st.pc])
    requires !IsAluOp(ins.opcode) && !IsTransferOp(ins.opcode)
    ensures Valid(r.next)
    ensures r.status != Running ==> r.next == st
  {
    if ins.opcode == '0' then
      Transition(Halted, st)
    else if ins.opcode == 'C' then
      JumpTo(st, if st.regs[ins.d] == 0 then ins.addr else st.pc + 1)
    else if ins.opcode == 'D' then
      JumpTo(st, if st.regs[ins.d] > 0 then ins.addr else st.pc + 1)
    else if ins.opcode == 'E' then
      JumpTo(st, st.regs[ins.d] + 1)
    else if ins.opcode == 'F' then
      JumpTo(st.(regs := st.regs[ins.d := st.pc]), ins.addr)
    else
      // the '-' of a negative word matches no opcode: only the counter moves
      Proceed(st)
  }

  /** How the run loop ends: opcode 0, the counter past `FF`, a fatal error, or
      the step budget spent. */
  datatype Outcome = Halt | PastEnd | Abort(error: Error) | OutOfFuel

  datatype Final = Final(outcome: Outcome, state: State)

  /** The loop `while True: halt = execute(); if halt or PC > 255: break`, for at
      most `fuel` calls of `execute`. */
  function Run(st: State, fuel: nat): (r: Final)
    requires Valid(st)
    ensures Valid(r.state)
    decreases fuel, 0
  {
    if fuel == 0 then Final(OutOfFuel, st)
    else if st.pc < 0 || st.pc >= CellCount then Final(Abort(BadFetch(st.pc)), st)
    else After(Exec(st), fuel - 1)
  }

  /** The loop's test after one call of `execute`: stop on a halt, an exception or
      a counter past `FF`, and go on with the budget that is left otherwise. */
  function After(t: Transition, fuel: nat): (r: Final)
    requires Valid(t.next)
    ensures Valid(r.state)
    decreases fuel, 1
  {
    match t.status
    case Halted => Final(Halt, t.next)
    case Failed(e) => Final(Abort(e), t.next)
    case Running => if t.next.pc >= CellCount then Final(PastEnd, t.next) else Run(t.next, fuel)
  }

  // ----- The program loader -----

  /** A line that `re.match(r'^[0-9A-F]{2}: [0-9A-F]{4}', line)` accepts; anything
      may follow the eight characters. */
  predicate IsEntry(line: string) {
    && |line| >= 8
    && IsUpperHexDigit(line[0]) && IsUpperHexDigit(line[1])
    && line[2] == ':' && line[3] == ' '
    && AllUpperHex(line[4..8])
  }

  /** The cell named by `line[0:2]`. */
  function EntryCell(line: string): (c: int)
    requires IsEntry(line)
    ensures 0 <= c < CellCount && Hex(c, 2) == line[0..2]
    ensures c == DigitValue(line[0]) * 16 + DigitValue(line[1])
  {
    var key := line[0..2];
    ValueOfTwo(key);
    WordRoundTrip(key);
    ValueOf(key)
  }

  /** The word spelled by `line[4:8]`. */
  function EntryWord(line: string): (w: int)
    requires IsEntry(line)
    ensures IsInputWord(w) && Hex(w, 4) == line[4..8]
    ensures w == DigitValue(line[4]) * 4096 + DigitValue(line[5]) * 256 + DigitValue(line[6]) * 16 + DigitValue(line[7])
  {
    var text := line[4..8];
    assert text[0] == line[4] && text[1] == line[5] && text[2] == line[6] && text[3] == line[7];
    ValueOfFour(text);
    WordRoundTrip(text);
    ValueOf(text)
  }

  /** The memory image after the loader's loop has read `lines`. */
  function Load(mem: seq<int>, lines: seq<string>): (r: seq<int>)
    requires |mem| == CellCount
    ensures |r| == CellCount
    ensures (forall i :: 0 <= i < |mem| ==> IsWord(mem[i])) ==> (forall i :: 0 <= i < |r| ==> IsWord(r[i]))
  {
    if lines == [] then mem
    else
      var before := Load(mem, lines[..|lines| - 1]);
      var line := lines[|lines| - 1];
      if IsEntry(line) then before[EntryCell(line) := EntryWord(line)] else before
  }

  /** The state before the first fetch: registers and memory zeroed, the program
      loaded, the counter at 16, nothing printed yet. */
  function Initial(lines: seq<string>, input: seq<int>): (st: State)
    requires forall i :: 0 <= i < |input| ==> IsInputWord(input[i])
    ensures Valid(st)
  {
    State(StartPc, seq(RegisterCount, _ => 0), Load(seq(CellCount, _ => 0), lines), input, [])
  }
}
