/** The 3-bit computer: registers A, B and C, a program of numbers read as (opcode, operand)
    pairs (opcodes 0..7 are instructions, any other raises), and an output list of values
    0..7. */
module RegisterMachine {

  import opened DecimalText

  /** The modulus of bst and out. */
  const Octal := 8
  const ComboErrorMessage := "Shouldn't happen with combo operand"

  datatype Registers = Registers(a: nat, b: nat, c: nat)
  datatype Register = A | B | C

  datatype Result<T> = Ok(value: T) | Err(msg: string)

  function Pow2(n: nat): (r: nat)
    ensures r >= 1
  {
    if n == 0 then 1 else 2 * Pow2(n - 1)
  }

  // ---- Bitwise exclusive or on naturals ----

  function Bit(x: nat, y: nat): nat
  {
    if x % 2 == y % 2 then 0 else 1
  }

  function Xor(x: nat, y: nat): nat
    decreases x + y
  {
    if x == 0 && y == 0 then 0 else 2 * Xor(x / 2, y / 2) + Bit(x, y)
  }

  lemma XorUnfold(x: nat, y: nat)
    ensures Xor(x, y) == 2 * Xor(x / 2, y / 2) + Bit(x, y)
    ensures Xor(x, y) / 2 == Xor(x / 2, y / 2) && Xor(x, y) % 2 == Bit(x, y)
  {
  }

  /** XOR with the same value twice gives the value back, so bxl with one operand undoes
      itself. */
  lemma {:induction false} XorSelfInverse(x: nat, y: nat)
    ensures Xor(Xor(x, y), y) == x
    decreases x + y
  {
    var z := Xor(x, y);
    XorUnfold(x, y);
    XorUnfold(z, y);
    if x + y > 0 {
      XorSelfInverse(x / 2, y / 2);
    }
  }

  lemma {:induction false} XorZero(x: nat)
    ensures Xor(x, 0) == x
    decreases x
  {
    if x > 0 {
      XorZero(x / 2);
    }
  }

  /** XOR with a literal operand below 8 only touches the low three bits. */
  lemma XorLowBits(x: nat, k: nat)
    requires k < Octal
    ensures Xor(x, k) / Octal == x / Octal
  {
    XorUnfold(x, k);
    XorUnfold(x / 2, k / 2);
    XorUnfold(x / 4, k / 4);
    XorZero(x / 8);
    assert x / 2 / 2 == x / 4 && x / 4 / 2 == x / 8;
    assert k / 2 / 2 == k / 4 && k / 8 == 0;
  }

  // ---- Operands and instructions ----

  /** resolve_combo_operand: 0..3 are literal, 4, 5 and 6 read A, B and C, and anything larger
      raises. */
  function ResolveCombo(regs: Registers, operand: nat): (r: Result<nat>)
    ensures r.Err? <==> operand >= 7
    ensures r.Err? ==> r.msg == ComboErrorMessage
    ensures operand < 4 ==> r == Ok(operand)
  {
    if operand < 4 then Ok(operand)
    else if operand == 4 then Ok(regs.a)
    else if operand == 5 then Ok(regs.b)
    else if operand == 6 then Ok(regs.c)
    else Err(ComboErrorMessage)
  }

  function SetRegister(regs: Registers, target: Register, v: nat): Registers
  {
    match target
    case A => regs.(a := v)
    case B => regs.(b := v)
    case C => regs.(c := v)
  }

  function Get(regs: Registers, r: Register): nat
  {
    match r
    case A => regs.a
    case B => regs.b
    case C => regs.c
  }

  /** do_div: A floor-divided by 2 to the combo operand, written to the target register. */
  function Div(regs: Registers, operand: nat, target: Register): (r: Result<Registers>)
    ensures r.Ok? <==> ResolveCombo(regs, operand).Ok?
    ensures r.Ok? ==> forall other :: other != target ==> Get(r.value, other) == Get(regs, other)
  {
    match ResolveCombo(regs, operand)
    case Err(msg) => Err(msg)
    case Ok(power) => Ok(SetRegister(regs, target, Quotient(regs.a, Pow2(power))))
  }

  /** Python's // on non-negative operands. */
  function Quotient(n: nat, d: nat): nat
    requires d > 0
  {
    n / d
  }

  /** The target register receives the floor of A over 2 to the combo operand: the largest q
      with q * 2^combo <= A. */
  lemma DivFloor(regs: Registers, operand: nat, target: Register)
    requires ResolveCombo(regs, operand).Ok?
    ensures var q, d := Get(Div(regs, operand, target).value, target), Pow2(ResolveCombo(regs, operand).value);
      q * d <= regs.a < (q + 1) * d
  {
    var d := Pow2(ResolveCombo(regs, operand).value);
    var q := Quotient(regs.a, d);
    assert Get(Div(regs, operand, target).value, target) == q;
    assert q * d + regs.a % d == regs.a;
  }

  /** The machine state between instructions. */
  datatype State = State(regs: Registers, ip: nat, output: seq<nat>)

  /** Reading an operand past the end of the program is an index error. */
  const MissingOperandMessage := "list index out of range"

  /** Looking up an opcode that is not in OPCODES is a key error. */
  const UnknownOpcodeMessage := "KeyError"

  /** One iteration of run_program's loop. Every instruction but a taken jump advances the
      instruction pointer by 2; jnz jumps to its operand only when A is non-zero and the
      operand differs from the instruction pointer. */
  function Step(program: seq<nat>, s: State): (r: Result<State>)
    requires s.ip < |program|
    ensures r.Ok? ==> |s.output| <= |r.value.output| <= |s.output| + 1 && r.value.output[..|s.output|] == s.output
    ensures r.Ok? && s.ip + 1 < |program| && program[s.ip] != 3 ==> r.value.ip == s.ip + 2
    ensures r.Ok? && s.ip + 1 < |program| && program[s.ip] == 3 ==>
      r.value.ip == if s.regs.a != 0 && program[s.ip + 1] != s.ip then program[s.ip + 1] else s.ip + 2
    ensures r.Err? <==>
      (s.ip + 1 >= |program| || program[s.ip] >= Octal || (program[s.ip] in {0, 2, 5, 6, 7} && program[s.ip + 1] >= 7))
    ensures r.Err? && s.ip + 1 < |program| ==>
      r.msg == if program[s.ip] >= Octal then UnknownOpcodeMessage else ComboErrorMessage
  {
    if s.ip + 1 >= |program| then Err(MissingOperandMessage)
    else
      var opcode, operand := program[s.ip], program[s.ip + 1];
      var next := s.ip + 2;
      if opcode >= Octal then Err(UnknownOpcodeMessage)
      else
      match opcode
      case 0 =>
        (match Div(s.regs, operand, A)
         case Err(msg) => Err(msg)
         case Ok(regs) => Ok(State(regs, next, s.output)))
      case 1 => Ok(State(s.regs.(b := Xor(s.regs.b, operand)), next, s.output))
      case 2 =>
        (match ResolveCombo(s.regs, operand)
         case Err(msg) => Err(msg)
         case Ok(v) => Ok(State(s.regs.(b := v % Octal), next, s.output)))
      case 3 =>
        if s.regs.a != 0 && operand != s.ip then Ok(State(s.regs, operand, s.output))
        else Ok(State(s.regs, next, s.output))
      case 4 => Ok(State(s.regs.(b := Xor(s.regs.b, s.regs.c)), next, s.output))
      case 5 =>
        (match ResolveCombo(s.regs, operand)
         case Err(msg) => Err(msg)
         case Ok(v) => Ok(State(s.regs, next, s.output + [v % Octal])))
      case 6 =>
        (match Div(s.regs, operand, B)
         case Err(msg) => Err(msg)
         case Ok(regs) => Ok(State(regs, next, s.output)))
      case 7 =>
        (match Div(s.regs, operand, C)
         case Err(msg) => Err(msg)
         case Ok(regs) => Ok(State(regs, next, s.output)))
  }

  /** What each instruction does to the registers: bxl is undone by repeating it, bst and out
      produce 3-bit values, bxc and the literal instructions leave A and C alone, jnz and out
      change no register, and the divisions write only their own register. */
  lemma StepEffects(program: seq<nat>, s: State)
    requires s.ip + 1 < |program| && Step(program, s).Ok?
    ensures var opcode, operand, r := program[s.ip], program[s.ip + 1], Step(program, s).value;
      && (opcode in {1, 2, 4} ==> r.regs.a == s.regs.a && r.regs.c == s.regs.c && r.output == s.output)
      && (opcode == 1 ==> Xor(r.regs.b, operand) == s.regs.b)
      && (opcode == 4 ==> Xor(r.regs.b, s.regs.c) == s.regs.b)
      && (opcode == 2 ==> r.regs.b < Octal)
      && (opcode in {3, 5} ==> r.regs == s.regs)
      && (opcode == 5 ==> |r.output| == |s.output| + 1 && r.output[|s.output|] < Octal)
      && (opcode in {0, 6, 7} ==> r.output == s.output)
      && (opcode == 0 ==> r.regs.b == s.regs.b && r.regs.c == s.regs.c)
      && (opcode == 6 ==> r.regs.a == s.regs.a && r.regs.c == s.regs.c)
      && (opcode == 7 ==> r.regs.a == s.regs.a && r.regs.b == s.regs.b)
  {
    var opcode, operand := program[s.ip], program[s.ip + 1];
    if opcode == 1 {
      XorSelfInverse(s.regs.b, operand);
    } else if opcode == 4 {
      XorSelfInverse(s.regs.b, s.regs.c);
    } else if opcode in {0, 6, 7} {
      var target := if opcode == 0 then A else if opcode == 6 then B else C;
      var d := Div(s.regs, operand, target);
      assert forall other :: other != target ==> Get(d.value, other) == Get(s.regs, other);
      assert Get(d.value, A) == d.value.a && Get(d.value, B) == d.value.b && Get(d.value, C) == d.value.c;
    }
  }

  /** How a run ends: the pointer left the program, an instruction raised, or the step budget
      ran out (the loop need not halt). */
  datatype Outcome = Halted(state: State) | Crashed(msg: string, state: State) | OutOfFuel(state: State)

  function Exec(program: seq<nat>, s: State, fuel: nat): Outcome
    decreases fuel
  {
    if s.ip >= |program| then Halted(s)
    else if fuel == 0 then OutOfFuel(s)
    else
      match Step(program, s)
      case Err(msg) => Crashed(msg, s)
      case Ok(s') => Exec(program, s', fuel - 1)
  }

  predicate Octals(vals: seq<nat>)
  {
    forall k :: 0 <= k < |vals| ==> vals[k] < Octal
  }

  /** Every output value is in 0..7, and output is only ever appended to. */
  lemma {:induction false} ExecOutput(program: seq<nat>, s: State, fuel: nat)
    requires Octals(s.output)
    ensures Octals(Exec(program, s, fuel).state.output)
    ensures s.output <= Exec(program, s, fuel).state.output
    decreases fuel
  {
    if s.ip < |program| && fuel > 0 {
      match Step(program, s)
      case Err(_) =>
      case Ok(s') =>
        assert s'.output == s.output || s'.output == s.output + [s'.output[|s.output|]];
        assert Octals(s'.output);
        ExecOutput(program, s', fuel - 1);
    }
  }

  /** A run that ended within its budget ends the same way with a larger budget. */
  lemma {:induction false} MoreFuelSameOutcome(program: seq<nat>, s: State, fuel: nat, more: nat)
    requires fuel <= more && !Exec(program, s, fuel).OutOfFuel?
    ensures Exec(program, s, more) == Exec(program, s, fuel)
    decreases fuel
  {
    if s.ip < |program| && fuel > 0 {
      match Step(program, s)
      case Err(_) =>
      case Ok(s') => MoreFuelSameOutcome(program, s', fuel - 1, more - 1);
    }
  }

  // ---- The comma-joined output ----

  /** ",".join of the output values written in decimal. */
  function Join(vals: seq<nat>): (r: string)
    requires Octals(vals)
    ensures |r| == if vals == [] then 0 else 2 * |vals| - 1
  {
    if vals == [] then ""
    else if |vals| == 1 then [DigitChar(vals[0])]
    else Join(vals[..|vals| - 1]) + [',', DigitChar(vals[|vals| - 1])]
  }

  /** The joined string holds value k at position 2k and a comma between neighbours. */
  lemma {:induction false} JoinLayout(vals: seq<nat>)
    requires Octals(vals)
    ensures forall k :: 0 <= k < |vals| ==> Join(vals)[2 * k] == DigitChar(vals[k])
    ensures forall k :: 0 <= k < |vals| - 1 ==> Join(vals)[2 * k + 1] == ','
  {
    if |vals| > 1 {
      JoinLayout(vals[..|vals| - 1]);
    }
  }

  /** Reading back every other character recovers the output values. */
  function Unjoin(s: string): seq<int>
    decreases |s|
  {
    if s == [] then [] else [s[0] as int - '0' as int] + Unjoin(if |s| >= 2 then s[2..] else [])
  }

  lemma {:induction false} UnjoinJoin(vals: seq<nat>)
    requires Octals(vals)
    ensures Unjoin(Join(vals)) == vals
    decreases |vals|
  {
    if vals != [] {
      JoinLayout(vals);
      if |vals| > 1 {
        JoinTail(vals);
        UnjoinJoin(vals[1..]);
      }
    }
  }

  /** Dropping the first digit and its comma leaves the join of the remaining values. */
  lemma {:induction false} JoinTail(vals: seq<nat>)
    requires Octals(vals) && |vals| > 1
    ensures Join(vals)[2..] == Join(vals[1..])
    decreases |vals|
  {
    var n := |vals|;
    var init, rest := vals[..n - 1], vals[1..];
    var tail := [',', DigitChar(vals[n - 1])];
    assert rest[..|rest| - 1] == init[1..] && rest[|rest| - 1] == vals[n - 1];
    if n > 2 {
      JoinTail(init);
      assert Join(vals)[2..] == Join(init)[2..] + tail;
    }
  }

  // ---- The interpreter with its mutable register file ----

  /** The register dictionary that do_div and run_program update in place. */
  class Computer {
    var registers: Registers

    constructor (registers: Registers)
      ensures this.registers == registers
    {
      this.registers := registers;
    }

    /** do_div: writes A div 2^combo into the target register and no other. */
    method DoDiv(operand: nat, target: Register) returns (r: Result<()>)
      modifies this
      ensures r.Ok? <==> Div(old(registers), operand, target).Ok?
      ensures r.Ok? ==> registers == Div(old(registers), operand, target).value
      ensures r.Err? ==> registers == old(registers) && r.msg == ComboErrorMessage
    {
      var numerator := registers.a;
      var power := ResolveCombo(registers, operand);
      if power.Err? {
        return Err(power.msg);
      }
      var denominator := Pow2(power.value);
      registers := SetRegister(registers, target, Quotient(numerator, denominator));
      return Ok(());
    }

    /** One pass of run_program's loop body at instruction pointer ip: the instruction
        updates the register file in place and yields the next pointer and output. */
    method ExecuteInstruction(program: seq<nat>, ip: nat, output: seq<nat>) returns (r: Result<State>)
      requires ip + 1 < |program|
      modifies this
      ensures r == Step(program, State(old(registers), ip, output))
      ensures r.Ok? ==> registers == r.value.regs
      ensures r.Err? ==> registers == old(registers)
    {
      var instructionPointer: int := ip;
      var finalOutput := output;
      var opcode := program[instructionPointer];
      var operand := program[instructionPointer + 1];
      if opcode == 0 {
        var d := DoDiv(operand, A);
        if d.Err? { return Err(d.msg); }
      } else if opcode == 1 {
        registers := registers.(b := Xor(registers.b, operand));
      } else if opcode == 2 {
        var v := ResolveCombo(registers, operand);
        if v.Err? { return Err(v.msg); }
        registers := registers.(b := v.value % Octal);
      } else if opcode == 3 {
        if registers.a != 0 && operand != instructionPointer {
          instructionPointer := operand as int - 2;
        }
      } else if opcode == 4 {
        registers := registers.(b := Xor(registers.b, registers.c));
      } else if opcode == 5 {
        var v := ResolveCombo(registers, operand);
        if v.Err? { return Err(v.msg); }
        finalOutput := finalOutput + [v.value % Octal];
      } else if opcode == 6 {
        var d := DoDiv(operand, B);
        if d.Err? { return Err(d.msg); }
      } else if opcode == 7 {
        var d := DoDiv(operand, C);
        if d.Err? { return Err(d.msg); }
      } else {
        return Err(UnknownOpcodeMessage);
      }
      instructionPointer := instructionPointer + 2;
      return Ok(State(registers, instructionPointer, finalOutput));
    }

    /** run_program with a step budget: executes instructions until the pointer leaves the
        program, an instruction raises, or the budget is spent. */
    method RunProgram(program: seq<nat>, fuel: nat) returns (outcome: Outcome)
      modifies this
      ensures outcome == Exec(program, State(old(registers), 0, []), fuel)
      ensures registers == outcome.state.regs
      ensures Octals(outcome.state.output)
    {
      ExecOutput(program, State(registers, 0, []), fuel);
      var instructionPointer: nat := 0;
      var finalOutput: seq<nat> := [];
      var steps := fuel;
      while instructionPointer < |program|
        invariant Exec(program, State(old(registers), 0, []), fuel)
          == Exec(program, State(registers, instructionPointer, finalOutput), steps)
        decreases steps
      {
        var here := State(registers, instructionPointer, finalOutput);
        if steps == 0 {
          return OutOfFuel(here);
        }
        if instructionPointer + 1 >= |program| {
          return Crashed(MissingOperandMessage, here);
        }
        var r := ExecuteInstruction(program, instructionPointer, finalOutput);
        if r.Err? {
          return Crashed(r.msg, here);
        }
        instructionPointer, finalOutput := r.value.ip, r.value.output;
        steps := steps - 1;
      }
      outcome := Halted(State(registers, instructionPointer, finalOutput));
    }
  }
}
