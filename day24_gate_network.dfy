/** A network of logic gates: wires start with known values, each gate computes AND, OR or
    XOR of two wires into a third as soon as both its inputs are known, and the number on the
    wires whose names start with 'z' is read in binary. */
module GateNetwork {

  import opened StringOrder
  import opened DecimalText

  type Wire = string
  /** The gate_values dictionary: the value of every wire known so far. */
  type Values = map<Wire, nat>

  /** One "wire_1 OP wire_2 -> out" line. The operator is kept as written, so an unknown
      one can be reported. */
  datatype Gate = Gate(wire1: Wire, op: string, wire2: Wire, out: Wire)

  datatype Result<T> = Ok(value: T) | Err(msg: string)

  const KnownOperations := {"AND", "OR", "XOR"}

  function UnknownOperation(op: string): string
  {
    "Unknown operation: " + op
  }

  // ---- Bitwise operators on non-negative integers ----

  /** Bit k of n, counting from the least significant. */
  function Bit(n: nat, k: nat): (b: nat)
    ensures b <= 1
  {
    if k == 0 then n % 2 else Bit(n / 2, k - 1)
  }

  function And(x: nat, y: nat): nat
    decreases x + y
  {
    if x == 0 || y == 0 then 0 else 2 * And(x / 2, y / 2) + (if x % 2 == 1 && y % 2 == 1 then 1 else 0)
  }

  function Or(x: nat, y: nat): nat
    decreases x + y
  {
    if x == 0 then y else if y == 0 then x else 2 * Or(x / 2, y / 2) + (if x % 2 == 1 || y % 2 == 1 then 1 else 0)
  }

  function Xor(x: nat, y: nat): nat
    decreases x + y
  {
    if x == 0 then y else if y == 0 then x else 2 * Xor(x / 2, y / 2) + (if x % 2 != y % 2 then 1 else 0)
  }

  lemma {:induction false} BitOfZero(k: nat)
    ensures Bit(0, k) == 0
  {
    if k > 0 {
      BitOfZero(k - 1);
    }
  }

  /** Above bit 0, bit k of 2h + b is bit k - 1 of h. */
  lemma BitShift(h: nat, b: nat, k: nat)
    requires b <= 1 && k > 0
    ensures Bit(2 * h + b, k) == Bit(h, k - 1) && Bit(2 * h + b, 0) == b
  {
    assert (2 * h + b) / 2 == h;
  }

  /** &, | and ^ act on each bit position separately: bit k of the result is the AND, OR or
      XOR of bit k of the operands. */
  lemma {:induction false} BitwiseAnd(x: nat, y: nat, k: nat)
    ensures Bit(And(x, y), k) == Bit(x, k) * Bit(y, k)
    decreases k
  {
    if x == 0 || y == 0 {
      BitOfZero(k);
    } else {
      var h, b := And(x / 2, y / 2), if x % 2 == 1 && y % 2 == 1 then 1 else 0;
      assert And(x, y) == 2 * h + b;
      if k == 0 {
        assert (2 * h + b) % 2 == b;
      } else {
        BitShift(h, b, k);
        BitwiseAnd(x / 2, y / 2, k - 1);
        assert Bit(x, k) == Bit(x / 2, k - 1) && Bit(y, k) == Bit(y / 2, k - 1);
      }
    }
  }

  lemma {:induction false} BitwiseOr(x: nat, y: nat, k: nat)
    ensures Bit(Or(x, y), k) == if Bit(x, k) + Bit(y, k) > 0 then 1 else 0
    decreases k
  {
    if x == 0 || y == 0 {
      BitOfZero(k);
    } else {
      var h, b := Or(x / 2, y / 2), if x % 2 == 1 || y % 2 == 1 then 1 else 0;
      assert Or(x, y) == 2 * h + b;
      if k == 0 {
        assert (2 * h + b) % 2 == b;
      } else {
        BitShift(h, b, k);
        BitwiseOr(x / 2, y / 2, k - 1);
        assert Bit(x, k) == Bit(x / 2, k - 1) && Bit(y, k) == Bit(y / 2, k - 1);
      }
    }
  }

  lemma {:induction false} BitwiseXor(x: nat, y: nat, k: nat)
    ensures Bit(Xor(x, y), k) == (Bit(x, k) + Bit(y, k)) % 2
    decreases k
  {
    if x == 0 || y == 0 {
      BitOfZero(k);
    } else {
      var h, b := Xor(x / 2, y / 2), if x % 2 != y % 2 then 1 else 0;
      assert Xor(x, y) == 2 * h + b;
      if k == 0 {
        assert (2 * h + b) % 2 == b;
      } else {
        BitShift(h, b, k);
        BitwiseXor(x / 2, y / 2, k - 1);
        assert Bit(x, k) == Bit(x / 2, k - 1) && Bit(y, k) == Bit(y / 2, k - 1);
      }
    }
  }

  /** On bits the operators are the truth tables, and their results are bits again. */
  lemma OnBits(x: nat, y: nat)
    requires x <= 1 && y <= 1
    ensures And(x, y) == x * y && Or(x, y) == (if x + y > 0 then 1 else 0) && Xor(x, y) == (x + y) % 2
  {
  }

  // ---- Gates ----

  /** Both inputs of the gate have a value. */
  predicate Ready(g: Gate, vals: Values)
  {
    g.wire1 in vals && g.wire2 in vals
  }

  /** The value a ready gate puts on its output wire, or the error for an unknown operator. */
  function Apply(g: Gate, vals: Values): (r: Result<nat>)
    requires Ready(g, vals)
    ensures r.Err? <==> g.op !in KnownOperations
    ensures r.Err? ==> r.msg == UnknownOperation(g.op)
    ensures r.Ok? && vals[g.wire1] <= 1 && vals[g.wire2] <= 1 ==> r.value <= 1
  {
    var a, b := vals[g.wire1], vals[g.wire2];
    if g.op == "AND" then Ok(And(a, b))
    else if g.op == "OR" then Ok(Or(a, b))
    else if g.op == "XOR" then Ok(Xor(a, b))
    else Err(UnknownOperation(g.op))
  }

  /** The index of the first occurrence of g. */
  function FirstIndex(ops: seq<Gate>, g: Gate): (j: nat)
    requires g in ops
    ensures j < |ops| && ops[j] == g && g !in ops[..j]
  {
    if ops[0] == g then 0
    else
      var j := FirstIndex(ops[1..], g);
      assert ops[..j + 1] == [ops[0]] + ops[1..][..j];
      j + 1
  }

  /** list.remove: drops the first occurrence, so exactly one copy of g goes. */
  function RemoveFirst(ops: seq<Gate>, g: Gate): (r: seq<Gate>)
    requires g in ops
    ensures |r| == |ops| - 1 && multiset(r) == multiset(ops) - multiset{g}
  {
    var j := FirstIndex(ops, g);
    assert ops == ops[..j] + [g] + ops[j + 1..];
    ops[..j] + ops[j + 1..]
  }

  // ---- One sweep of the for loop ----

  /** The list and the dictionary after a sweep, and the gates the sweep evaluated. */
  datatype Sweep = Sweep(operations: seq<Gate>, values: Values, fired: seq<Gate>)

  /** The for loop from position i on. Python walks a list by position, so removing the gate
      at position i moves the next gate into that position, and the loop then goes on at
      position i + 1: the gate right after an evaluated one waits for the next sweep. */
  function SweepFrom(ops: seq<Gate>, vals: Values, i: nat, fired: seq<Gate>): Result<Sweep>
    decreases |ops| + 1 - i
  {
    if i >= |ops| then Ok(Sweep(ops, vals, fired))
    else
      var g := ops[i];
      if !Ready(g, vals) then SweepFrom(ops, vals, i + 1, fired)
      else
        var rest := RemoveFirst(ops, g);
        match Apply(g, vals)
        case Err(msg) => Err(msg)
        case Ok(v) => SweepFrom(rest, vals[g.out := v], i + 1, fired + [g])
  }

  /** Every gate either stays in the list or was evaluated, and not both: the gates left
      plus the gates evaluated are the gates there were. Known wires stay known, and each
      evaluated gate's output wire has a value. */
  lemma {:induction false} SweepAccounts(ops: seq<Gate>, vals: Values, i: nat, fired: seq<Gate>)
    requires SweepFrom(ops, vals, i, fired).Ok?
    requires forall g :: g in fired ==> g.out in vals
    ensures var s := SweepFrom(ops, vals, i, fired).value;
      && multiset(s.operations) + multiset(s.fired) == multiset(ops) + multiset(fired)
      && vals.Keys <= s.values.Keys
      && (forall g :: g in s.fired ==> g.out in s.values)
    decreases |ops| + 1 - i
  {
    if i < |ops| {
      var g := ops[i];
      if !Ready(g, vals) {
        SweepAccounts(ops, vals, i + 1, fired);
      } else {
        var rest := RemoveFirst(ops, g);
        var v := Apply(g, vals).value;
        SweepAccounts(rest, vals[g.out := v], i + 1, fired + [g]);
      }
    }
  }

  predicate AllBits(vals: Values)
  {
    forall w :: w in vals ==> vals[w] <= 1
  }

  lemma {:induction false} SweepKeepsBits(ops: seq<Gate>, vals: Values, i: nat, fired: seq<Gate>)
    requires SweepFrom(ops, vals, i, fired).Ok? && AllBits(vals)
    ensures AllBits(SweepFrom(ops, vals, i, fired).value.values)
    decreases |ops| + 1 - i
  {
    if i < |ops| {
      var g := ops[i];
      if !Ready(g, vals) {
        SweepKeepsBits(ops, vals, i + 1, fired);
      } else {
        var v := Apply(g, vals).value;
        SweepKeepsBits(RemoveFirst(ops, g), vals[g.out := v], i + 1, fired + [g]);
      }
    }
  }

  /** A sweep in which no gate is ready changes nothing. */
  lemma {:induction false} SweepStuck(ops: seq<Gate>, vals: Values, i: nat, fired: seq<Gate>)
    requires forall g :: g in ops ==> !Ready(g, vals)
    ensures SweepFrom(ops, vals, i, fired) == Ok(Sweep(ops, vals, fired))
    decreases |ops| + 1 - i
  {
    if i < |ops| {
      SweepStuck(ops, vals, i + 1, fired);
    }
  }

  /** A sweep that reaches a ready gate evaluates at least one gate. */
  lemma {:induction false} SweepProgress(ops: seq<Gate>, vals: Values, i: nat, fired: seq<Gate>, j: nat)
    requires i <= j < |ops| && Ready(ops[j], vals) && SweepFrom(ops, vals, i, fired).Ok?
    ensures |SweepFrom(ops, vals, i, fired).value.operations| < |ops|
    decreases |ops| + 1 - i
  {
    var g := ops[i];
    if !Ready(g, vals) {
      SweepProgress(ops, vals, i + 1, fired, j);
    } else {
      var rest := RemoveFirst(ops, g);
      var v := Apply(g, vals).value;
      SweepShrinks(rest, vals[g.out := v], i + 1, fired + [g]);
    }
  }

  lemma {:induction false} SweepShrinks(ops: seq<Gate>, vals: Values, i: nat, fired: seq<Gate>)
    requires SweepFrom(ops, vals, i, fired).Ok?
    ensures |SweepFrom(ops, vals, i, fired).value.operations| <= |ops|
    decreases |ops| + 1 - i
  {
    if i < |ops| {
      var g := ops[i];
      if !Ready(g, vals) {
        SweepShrinks(ops, vals, i + 1, fired);
      } else {
        SweepShrinks(RemoveFirst(ops, g), vals[g.out := Apply(g, vals).value], i + 1, fired + [g]);
      }
    }
  }

  // ---- The while loop ----

  /** How simulate_operations ends: with the final values, with the ValueError for an
      unknown operator, or not within the given number of sweeps (the loop need not halt). */
  datatype Run<T> = Finished(value: T) | Raised(msg: string) | OutOfFuel

  /** Sweeps the list until it is empty, at most fuel times. */
  function Simulate(ops: seq<Gate>, vals: Values, fuel: nat): Run<Values>
    decreases fuel
  {
    if ops == [] then Finished(vals)
    else if fuel == 0 then OutOfFuel
    else
      match SweepFrom(ops, vals, 0, [])
      case Err(msg) => Raised(msg)
      case Ok(s) => Simulate(s.operations, s.values, fuel - 1)
  }

  /** When no gate left can ever become ready, the loop sweeps forever. */
  lemma {:induction false} SimulateStuck(ops: seq<Gate>, vals: Values, fuel: nat)
    requires ops != [] && forall g :: g in ops ==> !Ready(g, vals)
    ensures Simulate(ops, vals, fuel) == OutOfFuel
    decreases fuel
  {
    if fuel > 0 {
      SweepStuck(ops, vals, 0, []);
      SimulateStuck(ops, vals, fuel - 1);
    }
  }

  /** A sweep over gates that are all ready shortens the list, and what is left stays
      ready. */
  lemma SweepAllReady(ops: seq<Gate>, vals: Values)
    requires ops != [] && forall g :: g in ops ==> Ready(g, vals)
    requires SweepFrom(ops, vals, 0, []).Ok?
    ensures var s := SweepFrom(ops, vals, 0, []).value;
      |s.operations| < |ops| && forall g :: g in s.operations ==> Ready(g, s.values)
  {
    var s := SweepFrom(ops, vals, 0, []).value;
    SweepProgress(ops, vals, 0, [], 0);
    SweepAccounts(ops, vals, 0, []);
    var none: seq<Gate> := [];
    assert multiset(s.operations) + multiset(s.fired) == multiset(ops) + multiset(none);
    assert multiset(none) == multiset{};
    assert multiset(s.operations) + multiset(s.fired) == multiset(ops);
    forall g | g in s.operations ensures Ready(g, s.values) {
      assert multiset(s.operations)[g] > 0;
      assert multiset(ops)[g] == multiset(s.operations)[g] + multiset(s.fired)[g];
      assert g in ops;
    }
  }

  /** A run whose first sweep succeeds ends as the run from the swept state. */
  lemma SimulateUnfold(ops: seq<Gate>, vals: Values, fuel: nat)
    requires ops != [] && fuel > 0 && SweepFrom(ops, vals, 0, []).Ok?
    ensures var s := SweepFrom(ops, vals, 0, []).value;
      Simulate(ops, vals, fuel) == Simulate(s.operations, s.values, fuel - 1)
  {
  }

  /** A run with fuel left that has no gate to sweep, or whose sweep raises, has ended. */
  lemma SimulateEnds(ops: seq<Gate>, vals: Values, fuel: nat)
    requires ops == [] || (fuel > 0 && SweepFrom(ops, vals, 0, []).Err?)
    ensures !Simulate(ops, vals, fuel).OutOfFuel?
  {
  }

  /** When every gate is ready from the start (all its inputs are input wires), the loop
      finishes or raises within one sweep per gate. */
  lemma {:induction false} SimulateHalts(ops: seq<Gate>, vals: Values, fuel: nat)
    requires fuel >= |ops|
    requires forall g :: g in ops ==> Ready(g, vals)
    ensures !Simulate(ops, vals, fuel).OutOfFuel?
    decreases fuel
  {
    if ops == [] || SweepFrom(ops, vals, 0, []).Err? {
      SimulateEnds(ops, vals, fuel);
    } else {
      var s := SweepFrom(ops, vals, 0, []).value;
      SweepAllReady(ops, vals);
      SimulateHalts(s.operations, s.values, fuel - 1);
      SimulateUnfold(ops, vals, fuel);
    }
  }

  /** With bits on the input wires, every wire carries a bit at the end. */
  lemma {:induction false} SimulateKeepsBits(ops: seq<Gate>, vals: Values, fuel: nat)
    requires AllBits(vals) && Simulate(ops, vals, fuel).Finished?
    ensures AllBits(Simulate(ops, vals, fuel).value)
    decreases fuel
  {
    if ops != [] {
      SweepKeepsBits(ops, vals, 0, []);
      var s := SweepFrom(ops, vals, 0, []).value;
      SimulateKeepsBits(s.operations, s.values, fuel - 1);
    }
  }

  /** At the end every input wire still has a value and every gate's output wire has one. */
  lemma {:induction false} SimulateDefinesOutputs(ops: seq<Gate>, vals: Values, fuel: nat)
    requires Simulate(ops, vals, fuel).Finished?
    ensures vals.Keys <= Simulate(ops, vals, fuel).value.Keys
    ensures forall g :: g in ops ==> g.out in Simulate(ops, vals, fuel).value
    decreases fuel
  {
    if ops != [] {
      SweepAccounts(ops, vals, 0, []);
      var s := SweepFrom(ops, vals, 0, []).value;
      SimulateDefinesOutputs(s.operations, s.values, fuel - 1);
      forall g | g in ops ensures g.out in Simulate(ops, vals, fuel).value {
        assert g in multiset(s.operations) + multiset(s.fired);
        if g in s.fired {
          assert g.out in s.values;
        }
      }
    }
  }

  /** The list and the dictionary of simulate_operations, which it updates in place. */
  class Circuit {
    var operations: seq<Gate>
    var gateValues: Values

    constructor (operations: seq<Gate>, gateValues: Values)
      ensures this.operations == operations && this.gateValues == gateValues
    {
      this.operations := operations;
      this.gateValues := gateValues;
    }

    /** simulate_operations with at most fuel sweeps of the list. On success the list is
        empty and the dictionary holds the values the specification computes. */
    method SimulateOperations(fuel: nat) returns (run: Run<Values>)
      modifies this
      ensures run == Simulate(old(operations), old(gateValues), fuel)
      ensures run.Finished? ==> operations == [] && gateValues == run.value
    {
      var sweeps := fuel;
      while operations != []
        invariant Simulate(old(operations), old(gateValues), fuel) == Simulate(operations, gateValues, sweeps)
        decreases sweeps
      {
        if sweeps == 0 {
          return OutOfFuel;
        }
        var r := SweepOnce();
        if r.Err? {
          return Raised(r.msg);
        }
        sweeps := sweeps - 1;
      }
      return Finished(gateValues);
    }

    /** The for loop over the list, removing each gate it evaluates. */
    method SweepOnce() returns (r: Result<()>)
      modifies this
      ensures var s := SweepFrom(old(operations), old(gateValues), 0, []);
        && (r.Err? <==> s.Err?) && (s.Err? ==> r.msg == s.msg)
        && (s.Ok? ==> operations == s.value.operations && gateValues == s.value.values)
    {
      var i := 0;
      ghost var fired: seq<Gate> := [];
      while i < |operations|
        invariant SweepFrom(old(operations), old(gateValues), 0, []) == SweepFrom(operations, gateValues, i, fired)
        decreases |operations| + 1 - i
      {
        var operation := operations[i];
        var wire1 := operation.wire1;
        var wire2 := operation.wire2;
        if wire1 !in gateValues || wire2 !in gateValues {
          i := i + 1;
          continue;
        }
        operations := RemoveFirst(operations, operation);
        if operation.op == "AND" {
          gateValues := gateValues[operation.out := And(gateValues[wire1], gateValues[wire2])];
        } else if operation.op == "OR" {
          gateValues := gateValues[operation.out := Or(gateValues[wire1], gateValues[wire2])];
        } else if operation.op == "XOR" {
          gateValues := gateValues[operation.out := Xor(gateValues[wire1], gateValues[wire2])];
        } else {
          return Err(UnknownOperation(operation.op));
        }
        fired := fired + [operation];
        i := i + 1;
      }
      return Ok(());
    }
  }

  // ---- Reading the z wires ----

  predicate StartsWithZ(w: Wire)
  {
    |w| > 0 && w[0] == 'z'
  }

  /** The z_values dictionary. */
  function ZValues(vals: Values): (z: Values)
    ensures z.Keys <= vals.Keys && forall w :: w in z ==> StartsWithZ(w) && z[w] == vals[w]
    ensures forall w :: w in vals && StartsWithZ(w) ==> w in z
  {
    map w | w in vals && StartsWithZ(w) :: vals[w]
  }

  function Reverse<T>(s: seq<T>): (r: seq<T>)
    ensures |r| == |s|
  {
    if s == [] then [] else Reverse(s[1..]) + [s[0]]
  }

  /** "".join(str(z_values[k]) for k in keys). */
  function BinaryString(keys: seq<Wire>, z: Values): string
    requires forall k :: k in keys ==> k in z
  {
    if keys == [] then "" else BinaryString(keys[..|keys| - 1], z) + ToDecimal(z[keys[|keys| - 1]])
  }

  predicate IsBinary(s: string)
  {
    forall k :: 0 <= k < |s| ==> s[k] == '0' || s[k] == '1'
  }

  function BinaryValue(s: string): nat
    requires IsBinary(s)
  {
    if s == [] then 0 else 2 * BinaryValue(s[..|s| - 1]) + (if s[|s| - 1] == '1' then 1 else 0)
  }

  /** int(s, 2) on strings joined from str() of bits: an empty string raises, and so does any
      character other than 0 and 1 (Python also accepts whitespace, a sign, a 0b prefix and
      underscores, forms such strings never contain). */
  function ParseBinary(s: string): (r: Result<nat>)
    ensures r.Ok? <==> s != [] && IsBinary(s)
  {
    if s != [] && IsBinary(s) then Ok(BinaryValue(s))
    else Err("invalid literal for int() with base 2: '" + s + "'")
  }

  /** The z-wire number: the z wires sorted by name, reversed, their values joined and read
      in base 2. */
  ghost function DecodeZ(vals: Values): Result<nat>
  {
    var z := ZValues(vals);
    var keys := Reverse(Sorted(z.Keys));
    ReverseMembers(Sorted(z.Keys));
    ParseBinary(BinaryString(keys, z))
  }

  /** The z wires as bits, least significant first: the z wire with the smallest name is
      bit 0. */
  function LsbValue(names: seq<Wire>, z: Values): nat
    requires forall k :: k in names ==> k in z
  {
    if names == [] then 0 else z[names[0]] + 2 * LsbValue(names[1..], z)
  }

  function Pow2(n: nat): (r: nat)
    ensures r >= 1
  {
    if n == 0 then 1 else 2 * Pow2(n - 1)
  }

  lemma {:induction false} LsbValueBound(names: seq<Wire>, z: Values)
    requires forall k :: k in names ==> k in z && z[k] <= 1
    ensures LsbValue(names, z) < Pow2(|names|)
  {
    if names != [] {
      LsbValueBound(names[1..], z);
    }
  }

  lemma BinaryStringAppend(front: seq<Wire>, w: Wire, z: Values)
    requires (forall k :: k in front ==> k in z) && w in z
    ensures BinaryString(front + [w], z) == BinaryString(front, z) + ToDecimal(z[w])
  {
    assert (front + [w])[..|front|] == front;
  }

  lemma BinaryValueAppend(s: string, c: char)
    requires IsBinary(s) && (c == '0' || c == '1')
    ensures IsBinary(s + [c]) && BinaryValue(s + [c]) == 2 * BinaryValue(s) + (if c == '1' then 1 else 0)
  {
    assert (s + [c])[..|s|] == s;
  }

  lemma {:induction false} ReverseMembers<T>(s: seq<T>)
    ensures multiset(Reverse(s)) == multiset(s)
    ensures forall x :: x in Reverse(s) <==> x in s
  {
    if s != [] {
      ReverseMembers(s[1..]);
      assert s == [s[0]] + s[1..];
    }
    assert forall x :: x in Reverse(s) <==> x in multiset(Reverse(s));
  }

  /** Joined in descending name order, bits read as a binary numeral put the greatest name
      first: the most significant digit. */
  lemma {:induction false} ReversedBits(names: seq<Wire>, z: Values)
    requires forall k :: k in names ==> k in z && z[k] <= 1
    ensures forall k :: k in Reverse(names) ==> k in z
    ensures var s := BinaryString(Reverse(names), z);
      |s| == |names| && IsBinary(s) && BinaryValue(s) == LsbValue(names, z)
  {
    ReverseMembers(names);
    if names != [] {
      var front := Reverse(names[1..]);
      ReversedBits(names[1..], z);
      BinaryStringAppend(front, names[0], z);
      var d := ToDecimal(z[names[0]]);
      assert d == [if z[names[0]] == 0 then '0' else '1'];
      BinaryValueAppend(BinaryString(front, z), d[0]);
    }
  }

  /** With bits on the z wires, the number is the sum of each z wire's bit times 2 to the
      number of z wires named before it, and has at most one binary digit per z wire; with
      no z wire at all, int() raises. */
  lemma DecodeZBits(vals: Values)
    requires forall w :: w in vals && StartsWithZ(w) ==> vals[w] <= 1
    ensures var z := ZValues(vals);
      && (z.Keys == {} ==> DecodeZ(vals).Err?)
      && (z.Keys != {} ==> DecodeZ(vals) == Ok(LsbValue(Sorted(z.Keys), z)))
      && (DecodeZ(vals).Ok? ==> DecodeZ(vals).value < Pow2(|z.Keys|))
  {
    var z := ZValues(vals);
    var names := Sorted(z.Keys);
    ReversedBits(names, z);
    LsbValueBound(names, z);
    assert |names| == |multiset(names)| == |z.Keys|;
  }

  /** Reverses a list into a new one. */
  method Reversed(s: seq<Wire>) returns (r: seq<Wire>)
    ensures r == Reverse(s)
  {
    r := [];
    var k := 0;
    while k < |s|
      invariant 0 <= k <= |s| && r == Reverse(s[..k])
    {
      assert s[..k + 1][1..] == s[1..k + 1];
      ReversePrefix(s, k);
      r := [s[k]] + r;
      k := k + 1;
    }
    assert s[..k] == s;
  }

  lemma {:induction false} ReversePrefix(s: seq<Wire>, k: nat)
    requires k < |s|
    ensures Reverse(s[..k + 1]) == [s[k]] + Reverse(s[..k])
    decreases k
  {
    if k > 0 {
      ReversePrefix(s[1..], k - 1);
      assert s[..k + 1][1..] == s[1..][..k];
      assert s[..k][1..] == s[1..][..k - 1];
    }
  }

  /** The z-wire part of do_problem_part_1. */
  method ReadZ(gateValues: Values) returns (r: Result<nat>)
    ensures r == DecodeZ(gateValues)
  {
    var zValues := ZValues(gateValues);
    var sortedKeys := SortNames(zValues.Keys);
    var keys := Reversed(sortedKeys);
    ReverseMembers(sortedKeys);
    var binaryString := JoinValues(keys, zValues);
    r := ParseBinary(binaryString);
  }

  /** The join over the sorted keys. */
  method JoinValues(keys: seq<Wire>, zValues: Values) returns (binaryString: string)
    requires forall k :: k in keys ==> k in zValues
    ensures binaryString == BinaryString(keys, zValues)
  {
    binaryString := "";
    var k := 0;
    while k < |keys|
      invariant 0 <= k <= |keys| && binaryString == BinaryString(keys[..k], zValues)
    {
      assert keys[..k + 1][..k] == keys[..k];
      binaryString := binaryString + ToDecimal(zValues[keys[k]]);
      k := k + 1;
    }
    assert keys[..k] == keys;
  }

  /** do_problem_part_1 on parsed input, with at most fuel sweeps of the gate list. */
  ghost function Part1(ops: seq<Gate>, vals: Values, fuel: nat): Run<nat>
  {
    match Simulate(ops, vals, fuel)
    case Raised(msg) => Raised(msg)
    case OutOfFuel => OutOfFuel
    case Finished(v) =>
      match DecodeZ(v)
      case Err(msg) => Raised(msg)
      case Ok(n) => Finished(n)
  }

  /** With bits on the input wires and some z wire at the end, part one's answer is the
      z wires read as a binary number, the smallest name least significant. */
  lemma Part1Bits(ops: seq<Gate>, vals: Values, fuel: nat)
    requires AllBits(vals) && Simulate(ops, vals, fuel).Finished?
    requires ZValues(Simulate(ops, vals, fuel).value) != map[]
    ensures var z := ZValues(Simulate(ops, vals, fuel).value);
      Part1(ops, vals, fuel) == Finished(LsbValue(Sorted(z.Keys), z))
  {
    var v := Simulate(ops, vals, fuel).value;
    SimulateKeepsBits(ops, vals, fuel);
    var z := ZValues(v);
    assert z.Keys != {} by {
      var w :| w in z;
    }
    DecodeZBits(v);
  }

  method DoProblemPart1(ops: seq<Gate>, vals: Values, fuel: nat) returns (answer: Run<nat>)
    ensures answer == Part1(ops, vals, fuel)
  {
    var circuit := new Circuit(ops, vals);
    var run := circuit.SimulateOperations(fuel);
    match run
    case Raised(msg) => answer := Raised(msg);
    case OutOfFuel => answer := OutOfFuel;
    case Finished(gateValues) =>
      var r := ReadZ(gateValues);
      answer := if r.Ok? then Finished(r.value) else Raised(r.msg);
  }
}
