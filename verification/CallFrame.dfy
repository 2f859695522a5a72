/**
 The call frame instructions of section 6.4.2 of DWARF 4: their encoding, their
 effect on the unwind state, and what follows from it for whole programs.
 */
module CallFrame {
  import opened Bytes
  import opened Tracee
  import opened Leb128
  import opened CfiReading

  /** How to find a register's value in the caller. */
  datatype Rule =
    | Undefined
    | SameValue
    | Offset(offset: I64)
    | ValOffset(offset: I64)
    | InRegister(reg: U64)
    | AtExpression(expr: seq<Byte>)
    | IsExpression(expr: seq<Byte>)

  datatype CfaRule = CfaRule(reg: U64, offset: I64, isExpr: bool, expr: seq<Byte>)

  type Rules = map<U64, Rule>

  datatype Saved = Saved(rules: Rules, cfa: CfaRule)

  /** The registers of the unwind machine. */
  datatype State = State(location: U64, cfa: CfaRule, rules: Rules, stack: seq<Saved>)

  /** The part of a CIE that instructions depend on. */
  datatype Cie = Cie(codeAlign: U64, dataAlign: I64, ptrEnc: Byte)

  datatype Instr =
    | Nop
    | SetLoc(addr: U64)
    | AdvanceLoc(delta: nat)
    | DefCfa(reg: U64, off: U64)
    | DefCfaSf(reg: U64, soff: I64)
    | DefCfaRegister(reg: U64)
    | DefCfaOffset(off: U64)
    | DefCfaOffsetSf(soff: I64)
    | DefCfaExpression(expr: seq<Byte>)
    | SetUndefined(reg: U64)
    | SetSameValue(reg: U64)
    | SetOffset(reg: U64, off: U64)
    | SetOffsetSf(reg: U64, soff: I64)
    | SetValOffset(reg: U64, off: U64)
    | SetValOffsetSf(reg: U64, soff: I64)
    | SetRegister(reg: U64, other: U64)
    | SetExpression(reg: U64, expr: seq<Byte>)
    | SetValExpression(reg: U64, expr: seq<Byte>)
    | Restore(reg: U64)
    | RememberState
    | RestoreState

  predicate MovesLocation(i: Instr) {
    i.SetLoc? || i.AdvanceLoc?
  }

  // ---------------------------------------------------------------- decoding

  /** What follows an opcode byte. */
  datatype Shape = NoOperand | Pointer | Fixed(n: nat) | U | S | B | UU | US | UB | Unknown

  datatype Operands =
    | None0
    | Num(n: nat)
    | One(u: U64)
    | OneSigned(s: I64)
    | Block(b: seq<Byte>)
    | Two(u: U64, v: U64)
    | Mixed(u: U64, s: I64)
    | WithBlock(u: U64, b: seq<Byte>)

  function ShapeOf(op: Byte): Shape {
    if op >= 0xC0 then NoOperand
    else if op >= 0x80 then U
    else if op >= 0x40 then NoOperand
    else if op == 0x00 || op == 0x0A || op == 0x0B then NoOperand
    else if op == 0x01 then Pointer
    else if op == 0x02 then Fixed(1)
    else if op == 0x03 then Fixed(2)
    else if op == 0x04 then Fixed(4)
    else if op == 0x06 || op == 0x07 || op == 0x08 || op == 0x0D || op == 0x0E then U
    else if op == 0x05 || op == 0x09 || op == 0x0C || op == 0x14 then UU
    else if op == 0x0F then B
    else if op == 0x10 || op == 0x16 then UB
    else if op == 0x11 || op == 0x12 || op == 0x15 then US
    else if op == 0x13 then S
    else Unknown
  }

  /** A ULEB128 length and that many bytes. */
  function BlockAt(data: seq<Byte>, pos: nat): (r: Read<seq<Byte>>)
    requires pos <= |data|
    ensures r.Got? ==> pos <= r.next <= |data|
  {
    match UlebAt(data, pos)
    case Bad => Bad
    case Got(n, next) => SliceAt(data, next, n)
  }

  /** The operands at pos. */
  function OperandsAt(shape: Shape, data: seq<Byte>, pos: nat, ptrEnc: Byte): (r: Read<Operands>)
    requires pos <= |data|
    ensures r.Got? ==> pos <= r.next <= |data|
  {
    match shape
    case NoOperand => Got(None0, pos)
    case Unknown => Bad
    case Pointer => (match AddressAt(data, 0, pos, ptrEnc) case Bad => Bad case Got(a, p) => Got(One(a), p))
    case Fixed(n) => (match FixedAt(data, pos, n) case Bad => Bad case Got(v, p) => Got(Num(v), p))
    case U => (match UlebAt(data, pos) case Bad => Bad case Got(u, p) => Got(One(u), p))
    case S => (match SlebAt(data, pos) case Bad => Bad case Got(s, p) => Got(OneSigned(s), p))
    case B => (match BlockAt(data, pos) case Bad => Bad case Got(b, p) => Got(Block(b), p))
    case UU =>
      (match UlebAt(data, pos)
       case Bad => Bad
       case Got(u, p) => match UlebAt(data, p) case Bad => Bad case Got(v, q) => Got(Two(u, v), q))
    case US =>
      (match UlebAt(data, pos)
       case Bad => Bad
       case Got(u, p) => match SlebAt(data, p) case Bad => Bad case Got(s, q) => Got(Mixed(u, s), q))
    case UB =>
      match UlebAt(data, pos)
      case Bad => Bad
      case Got(u, p) => match BlockAt(data, p) case Bad => Bad case Got(b, q) => Got(WithBlock(u, b), q)
  }

  predicate Fits(o: Operands, shape: Shape) {
    match shape
    case NoOperand => o.None0?
    case Unknown => false
    case Pointer => o.One?
    case Fixed(n) => o.Num?
    case U => o.One?
    case S => o.OneSigned?
    case B => o.Block?
    case UU => o.Two?
    case US => o.Mixed?
    case UB => o.WithBlock?
  }

  lemma OperandsFit(shape: Shape, data: seq<Byte>, pos: nat, ptrEnc: Byte)
    requires pos <= |data| && OperandsAt(shape, data, pos, ptrEnc).Got?
    ensures Fits(OperandsAt(shape, data, pos, ptrEnc).value, shape)
  {
  }

  /** The instruction of an opcode byte and its operands. */
  function Build(op: Byte, o: Operands): Instr
    requires Fits(o, ShapeOf(op))
  {
    if op >= 0xC0 then Restore(op - 0xC0)
    else if op >= 0x80 then SetOffset(op - 0x80, o.u)
    else if op >= 0x40 then AdvanceLoc(op - 0x40)
    else if op == 0x00 then Nop
    else if op == 0x01 then SetLoc(o.u)
    else if op == 0x02 || op == 0x03 || op == 0x04 then AdvanceLoc(o.n)
    else if op == 0x05 then SetOffset(o.u, o.v)
    else if op == 0x06 then Restore(o.u)
    else if op == 0x07 then SetUndefined(o.u)
    else if op == 0x08 then SetSameValue(o.u)
    else if op == 0x09 then SetRegister(o.u, o.v)
    else if op == 0x0A then RememberState
    else if op == 0x0B then RestoreState
    else if op == 0x0C then DefCfa(o.u, o.v)
    else if op == 0x0D then DefCfaRegister(o.u)
    else if op == 0x0E then DefCfaOffset(o.u)
    else if op == 0x0F then DefCfaExpression(o.b)
    else if op == 0x10 then SetExpression(o.u, o.b)
    else if op == 0x11 then SetOffsetSf(o.u, o.s)
    else if op == 0x12 then DefCfaSf(o.u, o.s)
    else if op == 0x13 then DefCfaOffsetSf(o.s)
    else if op == 0x14 then SetValOffset(o.u, o.v)
    else if op == 0x15 then SetValOffsetSf(o.u, o.s)
    else SetValExpression(o.u, o.b)
  }

  /** One instruction at pos. */
  function DecodeAt(data: seq<Byte>, pos: nat, ptrEnc: Byte): (r: Read<Instr>)
    requires pos <= |data|
    ensures r.Got? ==> pos < r.next <= |data|
  {
    if pos == |data| then Bad
    else
      match OperandsAt(ShapeOf(data[pos]), data, pos + 1, ptrEnc)
      case Bad => Bad
      case Got(o, next) =>
        OperandsFit(ShapeOf(data[pos]), data, pos + 1, ptrEnc);
        Got(Build(data[pos], o), next)
  }

  // ---------------------------------------------------------------- effect

  /** int64 multiplication. */
  function Mul64(a: I64, b: I64): I64 {
    Signed64(Wrap64(a * b))
  }

  function CieRule(cieRules: Rules, reg: U64): Rule {
    if reg in cieRules then cieRules[reg] else Undefined
  }

  /** The effect of one instruction; None when it restores from an empty stack. */
  function Apply(cie: Cie, cieRules: Rules, i: Instr, s: State): Option<State> {
    match i
    case Nop => Some(s)
    case SetLoc(addr) => Some(s.(location := addr))
    case AdvanceLoc(delta) => Some(s.(location := Wrap64(s.location + delta * cie.codeAlign)))
    case DefCfa(reg, off) => Some(s.(cfa := CfaRule(reg, Signed64(off), false, [])))
    case DefCfaSf(reg, soff) => Some(s.(cfa := CfaRule(reg, Mul64(soff, cie.dataAlign), false, [])))
    case DefCfaRegister(reg) => Some(s.(cfa := s.cfa.(reg := reg)))
    case DefCfaOffset(off) => Some(s.(cfa := s.cfa.(offset := Signed64(off))))
    case DefCfaOffsetSf(soff) => Some(s.(cfa := s.cfa.(offset := Mul64(soff, cie.dataAlign))))
    case DefCfaExpression(expr) => Some(s.(cfa := CfaRule(0, 0, true, expr)))
    case SetUndefined(reg) => Some(s.(rules := s.rules[reg := Undefined]))
    case SetSameValue(reg) => Some(s.(rules := s.rules[reg := SameValue]))
    case SetOffset(reg, off) => Some(s.(rules := s.rules[reg := Offset(Mul64(Signed64(off), cie.dataAlign))]))
    case SetOffsetSf(reg, soff) => Some(s.(rules := s.rules[reg := Offset(Mul64(soff, cie.dataAlign))]))
    case SetValOffset(reg, off) => Some(s.(rules := s.rules[reg := ValOffset(Mul64(Signed64(off), cie.dataAlign))]))
    case SetValOffsetSf(reg, soff) => Some(s.(rules := s.rules[reg := ValOffset(Mul64(soff, cie.dataAlign))]))
    case SetRegister(reg, other) => Some(s.(rules := s.rules[reg := InRegister(other)]))
    case SetExpression(reg, expr) => Some(s.(rules := s.rules[reg := AtExpression(expr)]))
    case SetValExpression(reg, expr) => Some(s.(rules := s.rules[reg := IsExpression(expr)]))
    case Restore(reg) => Some(s.(rules := s.rules[reg := CieRule(cieRules, reg)]))
    case RememberState => Some(s.(stack := s.stack + [Saved(s.rules, s.cfa)]))
    case RestoreState =>
      if s.stack == [] then None
      else
        var top := s.stack[|s.stack| - 1];
        Some(s.(stack := s.stack[..|s.stack| - 1], rules := top.rules, cfa := top.cfa))
  }

  /** A whole program. */
  function Run(cie: Cie, cieRules: Rules, p: seq<Instr>, s: State): Option<State> {
    if p == [] then Some(s)
    else
      match Apply(cie, cieRules, p[0], s)
      case None => None
      case Some(s') => Run(cie, cieRules, p[1..], s')
  }

  /** The program run only while the location has not passed pc. */
  function RunTo(cie: Cie, cieRules: Rules, p: seq<Instr>, s: State, pc: U64): Option<State> {
    if p == [] || s.location > pc then Some(s)
    else
      match Apply(cie, cieRules, p[0], s)
      case None => None
      case Some(s') => RunTo(cie, cieRules, p[1..], s', pc)
  }

  // ---------------------------------------------------------------- the unwind table

  /**
   The rows of the unwind table of section 6.4.1: one is completed each time an
   instruction moves the location, and the last one at the end.
   */
  function Table(cie: Cie, cieRules: Rules, p: seq<Instr>, s: State): (rows: seq<State>)
    requires Run(cie, cieRules, p, s).Some?
    ensures rows != []
  {
    if p == [] then [s]
    else
      var rest := Table(cie, cieRules, p[1..], Apply(cie, cieRules, p[0], s).value);
      if MovesLocation(p[0]) then [s] + rest else rest
  }

  /** The row of the table that describes pc: the last whose location is not above it. */
  function RowFor(rows: seq<State>, pc: U64): (row: Option<State>)
  {
    if rows == [] then None
    else if rows[|rows| - 1].location <= pc then Some(rows[|rows| - 1])
    else RowFor(rows[..|rows| - 1], pc)
  }

  lemma {:induction false} RowForIsLast(rows: seq<State>, pc: U64)
    ensures RowFor(rows, pc).None? <==> forall k :: 0 <= k < |rows| ==> rows[k].location > pc
    ensures RowFor(rows, pc).Some? ==> exists k :: IsRowFor(rows, k, pc) && rows[k] == RowFor(rows, pc).value
  {
    if rows != [] && rows[|rows| - 1].location <= pc {
      assert IsRowFor(rows, |rows| - 1, pc);
    } else if rows != [] {
      var init := rows[..|rows| - 1];
      RowForIsLast(init, pc);
      assert forall k :: 0 <= k < |init| ==> init[k] == rows[k];
      if RowFor(init, pc).Some? {
        var k :| IsRowFor(init, k, pc) && init[k] == RowFor(init, pc).value;
        assert IsRowFor(rows, k, pc);
      }
    }
  }

  /** Row k is the last whose location is not above pc. */
  predicate IsRowFor(rows: seq<State>, k: int, pc: U64) {
    0 <= k < |rows| && rows[k].location <= pc && forall j :: k < j < |rows| ==> rows[j].location > pc
  }

  // ---------------------------------------------------------------- stopping early

  /** Only the rules matter for unwinding. */
  predicate SameRules(s: State, t: State) {
    s.cfa == t.cfa && s.rules == t.rules
  }

  lemma {:induction false} TableStarts(cie: Cie, cieRules: Rules, p: seq<Instr>, s: State)
    requires Run(cie, cieRules, p, s).Some?
    ensures Table(cie, cieRules, p, s)[0].location == s.location
  {
    if p != [] && !MovesLocation(p[0]) {
      TableStarts(cie, cieRules, p[1..], Apply(cie, cieRules, p[0], s).value);
    }
  }

  /** The index of the first row whose location is above pc, or the number of rows. */
  function FirstAbove(rows: seq<State>, pc: U64): (k: nat)
    ensures k <= |rows|
    ensures forall j :: 0 <= j < k ==> rows[j].location <= pc
    ensures k < |rows| ==> rows[k].location > pc
  {
    if rows == [] || rows[0].location > pc then 0 else 1 + FirstAbove(rows[1..], pc)
  }

  /** Once the locations are above pc they stay there. */
  predicate StaysAbove(rows: seq<State>, pc: U64) {
    forall i, j :: 0 <= i < j < |rows| && rows[i].location > pc ==> rows[j].location > pc
  }

  /** The row before the first one above pc. */
  function RowBefore(rows: seq<State>, pc: U64): (row: State)
    requires rows != [] && rows[0].location <= pc
  {
    rows[FirstAbove(rows, pc) - 1]
  }

  lemma RowBeforePush(first: State, rest: seq<State>, pc: U64)
    requires first.location <= pc && rest != []
    ensures RowBefore([first] + rest, pc) == if rest[0].location <= pc then RowBefore(rest, pc) else first
  {
    assert ([first] + rest)[1..] == rest;
  }

  /**
   Executing instructions only while the location is not above pc gives the CFA and
   register rules of the row before the first one above pc, for every error-free
   program, whatever its locations do.
   */
  lemma {:induction false} EarlyStopRow(cie: Cie, cieRules: Rules, p: seq<Instr>, s: State, pc: U64)
    requires s.location <= pc && Run(cie, cieRules, p, s).Some?
    ensures RunTo(cie, cieRules, p, s, pc).Some?
    ensures Table(cie, cieRules, p, s)[0].location <= pc
    ensures SameRules(RunTo(cie, cieRules, p, s, pc).value, RowBefore(Table(cie, cieRules, p, s), pc))
  {
    TableStarts(cie, cieRules, p, s);
    if p == [] {
      return;
    }
    var s' := Apply(cie, cieRules, p[0], s).value;
    if MovesLocation(p[0]) {
      TableStarts(cie, cieRules, p[1..], s');
      RowBeforePush(s, Table(cie, cieRules, p[1..], s'), pc);
    }
    if s'.location <= pc {
      EarlyStopRow(cie, cieRules, p[1..], s', pc);
    }
  }

  /** That row is the table's row for pc if and only if no location comes back to or below pc. */
  lemma RowBeforeFirstAbove(rows: seq<State>, pc: U64)
    requires rows != [] && rows[0].location <= pc
    ensures IsRowFor(rows, FirstAbove(rows, pc) - 1, pc) <==> StaysAbove(rows, pc)
  {
    var k := FirstAbove(rows, pc);
    if IsRowFor(rows, k - 1, pc) {
      forall i, j | 0 <= i < j < |rows| && rows[i].location > pc
        ensures rows[j].location > pc
      {
        assert i >= k;
      }
    }
  }

  /** Row k describes pc, and there is no other row that does. */
  lemma RowForUnique(rows: seq<State>, k: nat, pc: U64)
    requires IsRowFor(rows, k, pc)
    ensures RowFor(rows, pc) == Some(rows[k])
  {
    RowForIsLast(rows, pc);
    var j :| IsRowFor(rows, j, pc) && rows[j] == RowFor(rows, pc).value;
  }

  /** Early stopping gives the row for pc whenever locations above pc stay above it; ascending locations do. */
  lemma EarlyStop(cie: Cie, cieRules: Rules, p: seq<Instr>, s: State, pc: U64)
    requires s.location <= pc && Run(cie, cieRules, p, s).Some?
    requires StaysAbove(Table(cie, cieRules, p, s), pc)
    ensures RunTo(cie, cieRules, p, s, pc).Some?
    ensures RowFor(Table(cie, cieRules, p, s), pc).Some?
    ensures SameRules(RunTo(cie, cieRules, p, s, pc).value, RowFor(Table(cie, cieRules, p, s), pc).value)
  {
    var rows := Table(cie, cieRules, p, s);
    EarlyStopRow(cie, cieRules, p, s, pc);
    RowBeforeFirstAbove(rows, pc);
    RowForUnique(rows, FirstAbove(rows, pc) - 1, pc);
  }

  predicate Ascending(rows: seq<State>) {
    forall k :: 0 <= k < |rows| - 1 ==> rows[k].location <= rows[k + 1].location
  }

  lemma {:induction false} AscendingAt(rows: seq<State>, i: nat, j: nat)
    requires i <= j < |rows| && Ascending(rows)
    ensures rows[i].location <= rows[j].location
  {
    if i < j {
      AscendingAt(rows, i, j - 1);
      assert rows[j - 1].location <= rows[j - 1 + 1].location;
    }
  }

  /** The assumption of section 6.4.3 is sufficient for every pc. */
  lemma AscendingStaysAbove(rows: seq<State>, pc: U64)
    requires Ascending(rows)
    ensures StaysAbove(rows, pc)
  {
    forall i, j | 0 <= i < j < |rows| && rows[i].location > pc
      ensures rows[j].location > pc
    {
      AscendingAt(rows, i, j);
    }
  }

  /** A program that comes back to pc after passing it: the table has a later row for pc that early stopping never reaches. */
  lemma EarlyStopMissesReturn()
    ensures
      var cie, s := Cie(1, 1, 0), State(0, CfaRule(0, 0, false, []), map[], []);
      var p := [AdvanceLoc(9), SetLoc(0), SetSameValue(3)];
      && Run(cie, map[], p, s).Some? && !StaysAbove(Table(cie, map[], p, s), 5)
      && !SameRules(RunTo(cie, map[], p, s, 5).value, RowFor(Table(cie, map[], p, s), 5).value)
  {
    var cie, s := Cie(1, 1, 0), State(0, CfaRule(0, 0, false, []), map[], []);
    var p := [AdvanceLoc(9), SetLoc(0), SetSameValue(3)];
    var s1 := s.(location := 9);
    var s2 := s.(location := 0);
    var s3 := s2.(rules := map[3 := SameValue]);
    assert p[1..] == [SetLoc(0), SetSameValue(3)];
    assert p[1..][1..] == [SetSameValue(3)];
    assert p[1..][1..][1..] == [];
    assert Run(cie, map[], p[1..][1..], s2) == Some(s3);
    assert Run(cie, map[], p[1..], s1) == Some(s3);
    assert Table(cie, map[], p[1..][1..], s2) == [s3];
    assert Table(cie, map[], p[1..], s1) == [s1] + [s3];
    var rows := Table(cie, map[], p, s);
    assert rows == [s] + ([s1] + [s3]);
    assert rows[1].location > 5 && rows[2].location <= 5;
    assert RunTo(cie, map[], p[1..], s1, 5) == Some(s1);
    assert s3.rules[3] == SameValue && 3 !in s1.rules;
  }

  // ---------------------------------------------------------------- remember and restore

  /** The change in stack depth. */
  function Depth(i: Instr): int {
    if i.RememberState? then 1 else if i.RestoreState? then -1 else 0
  }

  /** The program never restores what it did not remember, and restores all it did; `depth` are still open. */
  predicate Balanced(p: seq<Instr>, depth: nat) {
    if p == [] then depth == 0
    else depth + Depth(p[0]) >= 0 && Balanced(p[1..], depth + Depth(p[0]))
  }

  /** A balanced program runs without error and leaves alone whatever is below its own part of the stack. */
  lemma {:induction false} BalancedKeepsStack(cie: Cie, cieRules: Rules, p: seq<Instr>, s: State, base: seq<Saved>, own: seq<Saved>)
    requires s.stack == base + own && Balanced(p, |own|)
    ensures Run(cie, cieRules, p, s).Some? && Run(cie, cieRules, p, s).value.stack == base
  {
    if p == [] {
      assert own == [] && base + own == base;
      return;
    }
    if p[0].RestoreState? {
      assert s.stack[..|s.stack| - 1] == base + own[..|own| - 1];
      BalancedKeepsStack(cie, cieRules, p[1..], Apply(cie, cieRules, p[0], s).value, base, own[..|own| - 1]);
    } else if p[0].RememberState? {
      var saved := [Saved(s.rules, s.cfa)];
      assert s.stack + saved == base + (own + saved);
      BalancedKeepsStack(cie, cieRules, p[1..], Apply(cie, cieRules, p[0], s).value, base, own + saved);
    } else {
      BalancedKeepsStack(cie, cieRules, p[1..], Apply(cie, cieRules, p[0], s).value, base, own);
    }
  }

  lemma {:induction false} RunAppend(cie: Cie, cieRules: Rules, p: seq<Instr>, q: seq<Instr>, s: State)
    ensures Run(cie, cieRules, p + q, s) ==
            match Run(cie, cieRules, p, s) case None => None case Some(t) => Run(cie, cieRules, q, t)
  {
    if p == [] {
      assert p + q == q;
    } else {
      assert (p + q)[1..] == p[1..] + q;
      match Apply(cie, cieRules, p[0], s)
      case None =>
      case Some(s') => RunAppend(cie, cieRules, p[1..], q, s');
    }
  }

  /**
   Whatever a balanced program does between remember_state and restore_state, at
   any nesting depth, the CFA, the register rules and the stack come out as they
   went in; only the location may have moved.
   */
  lemma RememberRestore(cie: Cie, cieRules: Rules, p: seq<Instr>, s: State)
    requires Balanced(p, 0)
    ensures
      var r := Run(cie, cieRules, [RememberState] + p + [RestoreState], s);
      r.Some? && r.value == s.(location := r.value.location)
  {
    var saved := [Saved(s.rules, s.cfa)];
    var s1 := s.(stack := s.stack + saved);
    assert s1.stack == s1.stack + [];
    BalancedKeepsStack(cie, cieRules, p, s1, s1.stack, []);
    var s2 := Run(cie, cieRules, p, s1).value;
    RunAppend(cie, cieRules, [RememberState], p + [RestoreState], s);
    RunAppend(cie, cieRules, p, [RestoreState], s1);
    assert [RememberState] + p + [RestoreState] == [RememberState] + (p + [RestoreState]);
    assert s2.stack[..|s2.stack| - 1] == s.stack;
    assert [RestoreState][1..] == [] && [RememberState][1..] == [];
    assert Run(cie, cieRules, [RememberState], s) == Some(s1);
    assert Run(cie, cieRules, [RestoreState], s2) == Some(s2.(stack := s.stack, rules := s.rules, cfa := s.cfa));
  }
}
