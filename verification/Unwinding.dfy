/**
 unwindContext: the call frame interpreter as it runs over the bytes of a CIE
 and an FDE, and the proof that it finds the unwind table row of a pc.
 */
module Unwinding {
  import opened Bytes
  import opened Tracee
  import opened Leb128
  import opened CfiReading
  import opened CallFrame
  import opened CallFrameEncoding

  const NO_CFA := CfaRule(0, 0, false, [])

  /** The outcome of the instruction at pos in state s: the state and the position after it. */
  function InstructionAt(cie: Cie, cieRules: Rules, data: seq<Byte>, pos: nat, s: State): (r: Read<State>)
    requires pos <= |data|
    ensures r.Got? ==> pos < r.next <= |data|
  {
    match DecodeAt(data, pos, cie.ptrEnc)
    case Bad => Bad
    case Got(i, next) =>
      match Apply(cie, cieRules, i, s)
      case None => Bad
      case Some(t) => Got(t, next)
  }

  /** The same for an opcode whose operands are at pos. */
  function OpcodeAt(cie: Cie, cieRules: Rules, op: Byte, data: seq<Byte>, pos: nat, s: State): (r: Read<State>)
    requires pos <= |data|
    ensures r.Got? ==> pos <= r.next <= |data|
  {
    match OperandsAt(ShapeOf(op), data, pos, cie.ptrEnc)
    case Bad => Bad
    case Got(o, next) =>
      OperandsFit(ShapeOf(op), data, pos, cie.ptrEnc);
      match Apply(cie, cieRules, Build(op, o), s)
      case None => Bad
      case Some(t) => Got(t, next)
  }

  /** The bytes from pos run to their end, or until the location passes the limit. */
  function RunBytes(cie: Cie, cieRules: Rules, data: seq<Byte>, pos: nat, s: State, limit: U64): Option<State>
    requires pos <= |data|
    decreases |data| - pos
  {
    if pos == |data| || s.location > limit then Some(s)
    else
      match InstructionAt(cie, cieRules, data, pos, s)
      case Bad => None
      case Got(t, next) => RunBytes(cie, cieRules, data, next, t, limit)
  }

  /** The location before the first instruction and the limit that no location exceeds. */
  const NO_LIMIT: U64 := TWO64 - 1

  /** The whole row computation: the CIE's instructions, then the FDE's up to pc. */
  function RowBytes(cie: Cie, cieCode: seq<Byte>, fdeCode: seq<Byte>, start: U64, pc: U64): Option<State> {
    match RunBytes(cie, map[], cieCode, 0, State(0, NO_CFA, map[], []), NO_LIMIT)
    case None => None
    case Some(s) => RunBytes(cie, s.rules, fdeCode, 0, s.(location := start), pc)
  }

  class UnwindContext {
    var reader: Reader
    var location: U64
    var cfa: CfaRule
    var registerRules: Rules
    var cieRegisterRules: Rules
    var ruleStack: seq<Saved>

    constructor ()
      ensures reader.Valid() && fresh(reader)
      ensures Now() == State(0, NO_CFA, map[], []) && cieRegisterRules == map[]
    {
      reader := new Reader([], 0, 0);
      location, cfa, registerRules, cieRegisterRules, ruleStack := 0, NO_CFA, map[], map[], [];
    }

    function Now(): State
      reads this
    {
      State(location, cfa, registerRules, ruleStack)
    }

    /** The context is where the outcome r says; ok is the absence of an error. */
    ghost predicate Reached(r: Read<State>, ok: bool)
      reads this, reader
    {
      && reader.Valid()
      && ok == r.Got?
      && (r.Got? ==> Now() == r.value && reader.pos == r.next)
    }

    /** The outcome of an opcode whose operands are at the reader's position. */
    ghost function Outcome(cie: Cie, op: Byte): Read<State>
      requires reader.Valid()
      reads this, reader
    {
      OpcodeAt(cie, cieRegisterRules, op, reader.data, reader.pos, Now())
    }

    /** executeCFIInstruction. */
    method ExecuteCFIInstruction(cie: Cie) returns (ok: bool)
      requires reader.Valid() && reader.baseAddr == 0
      modifies this`location, this`cfa, this`registerRules, this`ruleStack, reader
      ensures Reached(old(InstructionAt(cie, cieRegisterRules, reader.data, reader.pos, Now())), ok)
    {
      var op := reader.ReadFixed(1);
      if op.Bad? {
        return false;
      }
      OneByte(reader.data, old(reader.pos));
      if op.value >= 0x40 {
        ok := ExecutePrimary(cie, op.value);
      } else if op.value <= 0x04 {
        ok := ExecuteLocation(cie, op.value);
      } else if op.value == 0x0A || op.value == 0x0B {
        ok := ExecuteStack(cie, op.value);
      } else if op.value == 0x0C {
        ok := ExecuteDefCfa(cie);
      } else if 0x0D <= op.value <= 0x0F {
        ok := ExecuteCfaPart(cie, op.value);
      } else if op.value == 0x12 || op.value == 0x13 {
        ok := ExecuteDefCfaSf(cie, op.value);
      } else if op.value <= 0x16 {
        ok := ExecuteRule(cie, op.value);
      } else {
        ok := false;
      }
    }

    /** The two loops of UnwindFrame: execute a code block to its end, or until the location passes the limit. */
    method Execute(cie: Cie, code: seq<Byte>, limit: U64) returns (ok: bool)
      modifies this`reader, this`location, this`cfa, this`registerRules, this`ruleStack
      ensures ok == old(RunBytes(cie, cieRegisterRules, code, 0, Now(), limit)).Some?
      ensures ok ==> Now() == old(RunBytes(cie, cieRegisterRules, code, 0, Now(), limit)).value
    {
      reader := new Reader(code, 0, 0);
      while reader.pos < |reader.data| && location <= limit
        invariant fresh(reader) && reader.Valid() && reader.data == code && reader.baseAddr == 0
        invariant RunBytes(cie, cieRegisterRules, code, reader.pos, Now(), limit) ==
                  old(RunBytes(cie, cieRegisterRules, code, 0, Now(), limit))
        decreases |code| - reader.pos
      {
        ok := ExecuteCFIInstruction(cie);
        if !ok {
          return;
        }
      }
      ok := true;
    }

    /** UnwindFrame up to the application of the rules. */
    method FindRow(cie: Cie, cieCode: seq<Byte>, fdeCode: seq<Byte>, start: U64, pc: U64) returns (ok: bool)
      requires Now() == State(0, NO_CFA, map[], []) && cieRegisterRules == map[]
      modifies this
      ensures ok == RowBytes(cie, cieCode, fdeCode, start, pc).Some?
      ensures ok ==> Now() == RowBytes(cie, cieCode, fdeCode, start, pc).value
    {
      ok := Execute(cie, cieCode, NO_LIMIT);
      if !ok {
        return;
      }
      cieRegisterRules := registerRules;
      location := start;
      ok := Execute(cie, fdeCode, pc);
    }

    /** The opcodes with an operand in their low six bits. */
    method ExecutePrimary(cie: Cie, op: Byte) returns (ok: bool)
      requires reader.Valid() && op >= 0x40
      modifies this`location, this`registerRules, reader
      ensures Reached(old(Outcome(cie, op)), ok)
    {
      ok := true;
      if op < 0x80 {
        location := Wrap64(location + (op - 0x40) * cie.codeAlign);
      } else if op < 0xC0 {
        var uleb := reader.ReadULEB128();
        if uleb.Bad? {
          return false;
        }
        registerRules := registerRules[op - 0x80 := Offset(Mul64(Signed64(uleb.value), cie.dataAlign))];
      } else {
        RestoreInitial(op - 0xC0);
      }
    }

    method RestoreInitial(reg: U64)
      modifies this`registerRules
      ensures registerRules == old(registerRules)[reg := CieRule(cieRegisterRules, reg)]
    {
      if reg in cieRegisterRules {
        registerRules := registerRules[reg := cieRegisterRules[reg]];
      } else {
        registerRules := registerRules[reg := Undefined];
      }
    }

    /** nop, set_loc and advance_loc1, 2 and 4. */
    method ExecuteLocation(cie: Cie, op: Byte) returns (ok: bool)
      requires reader.Valid() && op <= 0x04 && reader.baseAddr == 0
      modifies this`location, reader
      ensures Reached(old(Outcome(cie, op)), ok)
    {
      if op == 0x00 {
        return true;
      }
      if op == 0x01 {
        var loc := reader.ReadAddress(cie.ptrEnc);
        if loc.Bad? {
          return false;
        }
        location := loc.value;
        return true;
      }
      var v := reader.ReadFixed(if op == 0x02 then 1 else if op == 0x03 then 2 else 4);
      if v.Bad? {
        return false;
      }
      location := Wrap64(location + v.value * cie.codeAlign);
      ok := true;
    }

    /** remember_state and restore_state. */
    method ExecuteStack(cie: Cie, op: Byte) returns (ok: bool)
      requires reader.Valid() && (op == 0x0A || op == 0x0B)
      modifies this`cfa, this`registerRules, this`ruleStack
      ensures Reached(old(Outcome(cie, op)), ok)
    {
      if op == 0x0A {
        ruleStack := ruleStack + [Saved(registerRules, cfa)];
        return true;
      }
      if |ruleStack| == 0 {
        return false;
      }
      var top := ruleStack[|ruleStack| - 1];
      ruleStack := ruleStack[..|ruleStack| - 1];
      registerRules := top.rules;
      cfa := top.cfa;
      ok := true;
    }

    /** def_cfa_register, def_cfa_offset and def_cfa_expression. */
    method ExecuteCfaPart(cie: Cie, op: Byte) returns (ok: bool)
      requires reader.Valid() && 0x0D <= op <= 0x0F
      modifies this`cfa, reader
      ensures Reached(old(Outcome(cie, op)), ok)
    {
      if op == 0x0F {
        var expr := ReadBlock();
        if expr.Bad? {
          return false;
        }
        cfa := CfaRule(0, 0, true, expr.value);
        return true;
      }
      var operand := reader.ReadULEB128();
      if operand.Bad? {
        return false;
      }
      if op == 0x0D {
        cfa := cfa.(reg := operand.value);
      } else {
        cfa := cfa.(offset := Signed64(operand.value));
      }
      ok := true;
    }

    /** def_cfa. */
    method ExecuteDefCfa(cie: Cie) returns (ok: bool)
      requires reader.Valid()
      modifies this`cfa, reader
      ensures Reached(old(Outcome(cie, 0x0C)), ok)
    {
      var reg := reader.ReadULEB128();
      if reg.Bad? {
        return false;
      }
      var off := reader.ReadULEB128();
      if off.Bad? {
        return false;
      }
      cfa := CfaRule(reg.value, Signed64(off.value), false, []);
      ok := true;
    }

    /** def_cfa_sf and def_cfa_offset_sf, whose offsets are factored. */
    method ExecuteDefCfaSf(cie: Cie, op: Byte) returns (ok: bool)
      requires reader.Valid() && (op == 0x12 || op == 0x13)
      modifies this`cfa, reader
      ensures Reached(old(Outcome(cie, op)), ok)
    {
      if op == 0x13 {
        var off := reader.ReadSLEB128();
        if off.Bad? {
          return false;
        }
        cfa := cfa.(offset := Mul64(off.value, cie.dataAlign));
        return true;
      }
      var reg := reader.ReadULEB128();
      if reg.Bad? {
        return false;
      }
      var off := reader.ReadSLEB128();
      if off.Bad? {
        return false;
      }
      cfa := CfaRule(reg.value, Mul64(off.value, cie.dataAlign), false, []);
      ok := true;
    }

    /** A ULEB128 length and the bytes of an expression. */
    method ReadBlock() returns (r: Read<seq<Byte>>)
      requires reader.Valid()
      modifies reader
      ensures r == BlockAt(reader.data, old(reader.pos)) && reader.Moved(r)
    {
      var length := reader.ReadULEB128();
      if length.Bad? {
        return Bad;
      }
      r := reader.Slice(length.value);
    }

    /** The opcodes that set the rule of a register read from the bytes. */
    method ExecuteRule(cie: Cie, op: Byte) returns (ok: bool)
      requires reader.Valid() && (0x05 <= op <= 0x09 || op == 0x10 || op == 0x11 || 0x14 <= op <= 0x16)
      modifies this`registerRules, reader
      ensures Reached(old(Outcome(cie, op)), ok)
    {
      RuleOpcode(cie, cieRegisterRules, op, reader.data, reader.pos, Now());
      var reg := reader.ReadULEB128();
      if reg.Bad? {
        return false;
      }
      if op == 0x06 {
        RestoreInitial(reg.value);
        return true;
      }
      var rule := ReadRule(cie, op);
      if rule.Bad? {
        return false;
      }
      registerRules := registerRules[reg.value := rule.value];
      ok := true;
    }

    /** The rule that follows the register. */
    method ReadRule(cie: Cie, op: Byte) returns (r: Read<Rule>)
      requires reader.Valid() && (op == 0x05 || 0x07 <= op <= 0x09 || op == 0x10 || op == 0x11 || 0x14 <= op <= 0x16)
      modifies reader
      ensures r == RuleAt(cie, op, reader.data, old(reader.pos)) && reader.Moved(r)
    {
      if op == 0x07 {
        return Got(Undefined, reader.pos);
      }
      if op == 0x08 {
        return Got(SameValue, reader.pos);
      }
      if op == 0x10 || op == 0x16 {
        var expr := ReadBlock();
        if expr.Bad? {
          return Bad;
        }
        return Got(if op == 0x10 then AtExpression(expr.value) else IsExpression(expr.value), expr.next);
      }
      if op == 0x11 || op == 0x15 {
        var off := reader.ReadSLEB128();
        if off.Bad? {
          return Bad;
        }
        var offset := Mul64(off.value, cie.dataAlign);
        return Got(if op == 0x11 then Offset(offset) else ValOffset(offset), off.next);
      }
      var uleb := reader.ReadULEB128();
      if uleb.Bad? {
        return Bad;
      }
      if op == 0x09 {
        return Got(InRegister(uleb.value), uleb.next);
      }
      var offset := Mul64(Signed64(uleb.value), cie.dataAlign);
      r := Got(if op == 0x05 then Offset(offset) else ValOffset(offset), uleb.next);
    }
  }

  /** The rule that the operands behind the register describe. */
  function RuleAt(cie: Cie, op: Byte, data: seq<Byte>, pos: nat): Read<Rule>
    requires pos <= |data|
    requires op == 0x05 || 0x07 <= op <= 0x09 || op == 0x10 || op == 0x11 || 0x14 <= op <= 0x16
  {
    match ShapeOf(op)
    case U => Got(if op == 0x07 then Undefined else SameValue, pos)
    case UB =>
      (match BlockAt(data, pos)
       case Bad => Bad
       case Got(b, next) => Got(if op == 0x10 then AtExpression(b) else IsExpression(b), next))
    case US =>
      (match SlebAt(data, pos)
       case Bad => Bad
       case Got(v, next) =>
         var offset := Mul64(v, cie.dataAlign);
         Got(if op == 0x11 then Offset(offset) else ValOffset(offset), next))
    case _ =>
      match UlebAt(data, pos)
      case Bad => Bad
      case Got(v, next) =>
        var offset := Mul64(Signed64(v), cie.dataAlign);
        Got(if op == 0x09 then InRegister(v) else if op == 0x05 then Offset(offset) else ValOffset(offset), next)
  }

  /** An opcode that sets a rule reads a register and then the rule. */
  function RuleEffect(cie: Cie, cieRules: Rules, op: Byte, data: seq<Byte>, pos: nat, s: State): Read<State>
    requires pos <= |data| && (0x05 <= op <= 0x09 || op == 0x10 || op == 0x11 || 0x14 <= op <= 0x16)
  {
    match UlebAt(data, pos)
    case Bad => Bad
    case Got(reg, p) =>
      if op == 0x06 then Got(s.(rules := s.rules[reg := CieRule(cieRules, reg)]), p)
      else
        match RuleAt(cie, op, data, p)
        case Bad => Bad
        case Got(rule, q) => Got(s.(rules := s.rules[reg := rule]), q)
  }

  lemma RuleOpcode(cie: Cie, cieRules: Rules, op: Byte, data: seq<Byte>, pos: nat, s: State)
    requires pos <= |data| && (0x05 <= op <= 0x09 || op == 0x10 || op == 0x11 || 0x14 <= op <= 0x16)
    ensures OpcodeAt(cie, cieRules, op, data, pos, s) == RuleEffect(cie, cieRules, op, data, pos, s)
  {
    if op <= 0x08 && op != 0x05 {
      SingleRule(cie, cieRules, op, data, pos, s);
    } else if op == 0x05 || op == 0x09 || op == 0x14 {
      UnsignedRule(cie, cieRules, op, data, pos, s);
    } else if op == 0x11 || op == 0x15 {
      SignedRule(cie, cieRules, op, data, pos, s);
    } else {
      ExpressionRule(cie, cieRules, op, data, pos, s);
    }
  }

  lemma SignedRule(cie: Cie, cieRules: Rules, op: Byte, data: seq<Byte>, pos: nat, s: State)
    requires pos <= |data| && (op == 0x11 || op == 0x15)
    ensures OpcodeAt(cie, cieRules, op, data, pos, s) == RuleEffect(cie, cieRules, op, data, pos, s)
  {
  }

  lemma ExpressionRule(cie: Cie, cieRules: Rules, op: Byte, data: seq<Byte>, pos: nat, s: State)
    requires pos <= |data| && (op == 0x10 || op == 0x16)
    ensures OpcodeAt(cie, cieRules, op, data, pos, s) == RuleEffect(cie, cieRules, op, data, pos, s)
  {
  }

  lemma SingleRule(cie: Cie, cieRules: Rules, op: Byte, data: seq<Byte>, pos: nat, s: State)
    requires pos <= |data| && 0x06 <= op <= 0x08
    ensures OpcodeAt(cie, cieRules, op, data, pos, s) == RuleEffect(cie, cieRules, op, data, pos, s)
  {
  }

  lemma UnsignedRule(cie: Cie, cieRules: Rules, op: Byte, data: seq<Byte>, pos: nat, s: State)
    requires pos <= |data| && (op == 0x05 || op == 0x09 || op == 0x14)
    ensures OpcodeAt(cie, cieRules, op, data, pos, s) == RuleEffect(cie, cieRules, op, data, pos, s)
  {
  }

  // ---------------------------------------------------------------- programs

  /** The instructions from pos to the end of the bytes. */
  function Program(data: seq<Byte>, pos: nat, ptrEnc: Byte): Option<seq<Instr>>
    requires pos <= |data|
    decreases |data| - pos
  {
    if pos == |data| then Some([])
    else
      match DecodeAt(data, pos, ptrEnc)
      case Bad => None
      case Got(i, next) =>
        match Program(data, next, ptrEnc)
        case None => None
        case Some(rest) => Some([i] + rest)
  }

  /** Every instruction of a program that starts at pos can be encoded where it then stands. */
  predicate AllEncodable(p: seq<Instr>, enc: Byte, pos: nat) {
    p == [] || (Encodable(p[0], enc, pos) && AllEncodable(p[1..], enc, pos + |Encode(p[0], enc, pos)|))
  }

  function EncodeAll(p: seq<Instr>, enc: Byte, pos: nat): seq<Byte>
    requires AllEncodable(p, enc, pos)
  {
    if p == [] then [] else Encode(p[0], enc, pos) + EncodeAll(p[1..], enc, pos + |Encode(p[0], enc, pos)|)
  }

  /** An encoded program reads back as itself, behind any bytes. */
  lemma {:induction false} ProgramRoundTrip(prefix: seq<Byte>, p: seq<Instr>, enc: Byte)
    requires AllEncodable(p, enc, |prefix|)
    ensures Program(prefix + EncodeAll(p, enc, |prefix|), |prefix|, enc) == Some(p)
    decreases |p|
  {
    hide Encode, DecodeAt;
    if p != [] {
      var more := EncodeAll(p[1..], enc, |prefix| + |Encode(p[0], enc, |prefix|)|);
      var code := InstrRoundTrip(prefix, p[0], more, enc);
      SameBytes(prefix, code, more);
      ProgramRoundTrip(prefix + code, p[1..], enc);
      ProgramStep(prefix + EncodeAll(p, enc, |prefix|), |prefix|, p[0], |prefix + code|, p[1..], enc);
      assert [p[0]] + p[1..] == p;
    }
  }

  /** DecodeEncode, with the code of the instruction as a value. */
  lemma InstrRoundTrip(prefix: seq<Byte>, i: Instr, rest: seq<Byte>, enc: Byte) returns (code: seq<Byte>)
    requires Encodable(i, enc, |prefix|)
    ensures code == Encode(i, enc, |prefix|)
    ensures DecodeAt(prefix + (code + rest), |prefix|, enc) == Got(i, |prefix + code|)
  {
    code := Encode(i, enc, |prefix|);
    DecodeEncode(prefix, i, rest, enc);
    SameBytes(prefix, code, rest);
  }

  lemma SameBytes(prefix: seq<Byte>, code: seq<Byte>, rest: seq<Byte>)
    ensures prefix + (code + rest) == prefix + code + rest && |prefix + code| == |prefix| + |code|
  {
  }

  /** One instruction in front of a program. */
  lemma ProgramStep(data: seq<Byte>, pos: nat, i: Instr, next: nat, p: seq<Instr>, enc: Byte)
    requires pos < next <= |data|
    requires DecodeAt(data, pos, enc) == Got(i, next) && Program(data, next, enc) == Some(p)
    ensures Program(data, pos, enc) == Some([i] + p)
  {
  }

  /** Interpreting the bytes is running the instructions they encode. */
  lemma {:induction false} RunBytesProgram(cie: Cie, cieRules: Rules, data: seq<Byte>, pos: nat, s: State, limit: U64)
    requires pos <= |data| && Program(data, pos, cie.ptrEnc).Some?
    ensures RunBytes(cie, cieRules, data, pos, s, limit) ==
            RunTo(cie, cieRules, Program(data, pos, cie.ptrEnc).value, s, limit)
    decreases |data| - pos
  {
    if pos < |data| {
      var d := DecodeAt(data, pos, cie.ptrEnc);
      var rest := Program(data, d.next, cie.ptrEnc).value;
      assert ([d.value] + rest)[1..] == rest;
      match Apply(cie, cieRules, d.value, s)
      case None =>
      case Some(t) => RunBytesProgram(cie, cieRules, data, d.next, t, limit);
    }
  }

  lemma {:induction false} RunWithoutLimit(cie: Cie, cieRules: Rules, p: seq<Instr>, s: State)
    ensures RunTo(cie, cieRules, p, s, NO_LIMIT) == Run(cie, cieRules, p, s)
  {
    if p != [] {
      match Apply(cie, cieRules, p[0], s)
      case None =>
      case Some(t) => RunWithoutLimit(cie, cieRules, p[1..], t);
    }
  }

  /** The state in which the FDE's instructions start, when the CIE's are error-free. */
  function InitialState(cie: Cie, initial: seq<Instr>, start: U64): Option<State> {
    match Run(cie, map[], initial, State(0, NO_CFA, map[], []))
    case None => None
    case Some(s) => Some(s.(location := start))
  }

  /** The complete unwind table of a CIE and an FDE. */
  function FullTable(cie: Cie, cieCode: seq<Byte>, fdeCode: seq<Byte>, start: U64): seq<State>
    requires ErrorFree(cie, cieCode, fdeCode, start)
  {
    var s := InitialState(cie, Program(cieCode, 0, cie.ptrEnc).value, start).value;
    Table(cie, s.rules, Program(fdeCode, 0, cie.ptrEnc).value, s)
  }

  /** Both blocks decode and run without error. */
  predicate ErrorFree(cie: Cie, cieCode: seq<Byte>, fdeCode: seq<Byte>, start: U64) {
    && Program(cieCode, 0, cie.ptrEnc).Some? && Program(fdeCode, 0, cie.ptrEnc).Some?
    && InitialState(cie, Program(cieCode, 0, cie.ptrEnc).value, start).Some?
    && var s := InitialState(cie, Program(cieCode, 0, cie.ptrEnc).value, start).value;
       Run(cie, s.rules, Program(fdeCode, 0, cie.ptrEnc).value, s).Some?
  }

  /**
   From the bytes of a CIE and an FDE to the rules at pc: whenever both decode and run
   without error from a start not above pc, the interpreter ends with the rules of the row
   before the first one above pc in the complete unwind table of section 6.4.1. That row is
   the one for pc if and only if locations that are above pc stay above it.
   */
  lemma UnwindRow(cie: Cie, cieCode: seq<Byte>, fdeCode: seq<Byte>, start: U64, pc: U64)
    requires start <= pc && ErrorFree(cie, cieCode, fdeCode, start)
    ensures
      var rows := FullTable(cie, cieCode, fdeCode, start);
      var found, k := RowBytes(cie, cieCode, fdeCode, start, pc), FirstAbove(rows, pc);
      && found.Some? && k > 0 && SameRules(found.value, RowBefore(rows, pc)) && RowBefore(rows, pc) == rows[k - 1]
      && (IsRowFor(rows, k - 1, pc) <==> StaysAbove(rows, pc))
  {
    var initial := Program(cieCode, 0, cie.ptrEnc).value;
    var body := Program(fdeCode, 0, cie.ptrEnc).value;
    var s := InitialState(cie, initial, start).value;
    RunBytesProgram(cie, map[], cieCode, 0, State(0, NO_CFA, map[], []), NO_LIMIT);
    RunWithoutLimit(cie, map[], initial, State(0, NO_CFA, map[], []));
    RunBytesProgram(cie, s.rules, fdeCode, 0, s, pc);
    EarlyStopRow(cie, s.rules, body, s, pc);
    RowBeforeFirstAbove(FullTable(cie, cieCode, fdeCode, start), pc);
  }
}
