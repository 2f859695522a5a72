/**
 What call frame information is for: whatever a function has done to the stack
 and the registers, its unwind table gives back what its caller had. A machine
 with registers and memory executes a function's instructions, a compiler
 describes each of them in call frame instructions, and UnwindFrame reads the
 bytes of that description. The laws here say what the description means
 without naming the interpreter's own effect of an instruction.
 */
module Prologue {
  import opened Bytes
  import opened Memory
  import opened Tracee
  import opened CallFrame
  import opened CallFrameEncoding
  import opened Unwinding
  import opened RegisterRules

  // ---------------------------------------------------------------- UnwindFrame

  /** UnwindFrame, once the FDE is found: the row for pc, and the rules of the row. */
  method UnwindFrame(cie: Cie, cieCode: seq<Byte>, fdeCode: seq<Byte>, start: U64, pc: U64, regs: seq<Byte>, t: Tracing)
    returns (r: Option<U64>, unwound: array<Byte>)
    requires |regs| == GPR_BYTES
    requires
      var row := RowBytes(cie, cieCode, fdeCode, start, pc);
      row.Some? ==> Integral(row.value.cfa, row.value.rules)
    ensures fresh(unwound)
    ensures
      var row := RowBytes(cie, cieCode, fdeCode, start, pc);
      r.None? <==> row.None? || CfaOf(row.value.cfa, regs, t).None? ||
                   SomeFails(row.value.rules, regs, CfaOf(row.value.cfa, regs, t).value, t)
    ensures
      var row := RowBytes(cie, cieCode, fdeCode, start, pc);
      r.Some? ==> r == CfaOf(row.value.cfa, regs, t) && Assigned(unwound[..], row.value.rules, regs, r.value, t)
  {
    var ctx := new UnwindContext();
    var ok := ctx.FindRow(cie, cieCode, fdeCode, start, pc);
    if !ok {
      return None, new Byte[0];
    }
    r, unwound := ExecuteUnwindRules(ctx.cfa, ctx.registerRules, regs, t);
  }

  // ---------------------------------------------------------------- the machine

  const RBP: U64 := 6
  const RA: U64 := 16

  /** Registers by DWARF number, and memory. */
  datatype Cpu = Cpu(regs: map<U64, U64>, mem: Mem)

  /** The general-purpose registers. */
  predicate Gpr(id: U64) {
    GprOffset(id).Some?
  }

  function R(c: Cpu, id: U64): U64 {
    if id in c.regs then c.regs[id] else 0
  }

  function SetR(c: Cpu, id: U64, v: U64): Cpu {
    c.(regs := c.regs[id := v])
  }

  /** The bytes of user_regs_struct that ptrace reports of a machine. */
  ghost predicate Snapshot(bytes: seq<Byte>, c: Cpu) {
    && |bytes| == GPR_BYTES
    && forall id: U64 {:trigger Gpr(id)} :: Gpr(id) ==> Get(bytes, GprOffset(id).value) == R(c, id)
  }

  /** The word at an address; what an unmapped address gives does not matter. */
  ghost function Word(m: Mem, a: int): U64 {
    if Mapped(m, a, 8) then WordBound(ReadBytes(m, a, 8)); FromLE(ReadBytes(m, a, 8)) else 0
  }

  /** What a function does, by what it means for unwinding. The last four say more about a place without executing anything. */
  datatype Act =
    | Push(reg: U64)
    | Pop(reg: U64)
    | Adjust(n: int)
    | Store(disp: nat, bytes: seq<Byte>)
    | SetFrame
    | ResetStack
    | Clobber(reg: U64, value: U64)
    | Move(reg: U64, to: U64)
    | MoveBack(reg: U64, from: U64)
    | TakeReturn(to: U64)
    | PutReturn(from: U64)
    | Derive(reg: U64)
    | Spell(reg: U64, expr: seq<Byte>)
    | Compute(reg: U64, expr: seq<Byte>)
    | Rebase(base: Base)

  function PushWord(c: Cpu, v: U64): Cpu {
    var sp := Wrap64(R(c, RSP) - 8);
    SetR(c.(mem := WriteBytes(c.mem, sp, ToLE(v, 8))), RSP, sp)
  }

  ghost function PopInto(c: Cpu, to: U64): Cpu {
    SetR(SetR(c, RSP, Wrap64(R(c, RSP) + 8)), to, Word(c.mem, R(c, RSP)))
  }

  /** The machine. */
  ghost function Exec(c: Cpu, a: Act): Cpu {
    match a
    case Push(reg) => PushWord(c, R(c, reg))
    case Pop(reg) => PopInto(c, reg)
    case Adjust(n) => SetR(c, RSP, Wrap64(R(c, RSP) - n))
    case Store(disp, bytes) => c.(mem := WriteBytes(c.mem, R(c, RSP) + disp, bytes))
    case SetFrame => SetR(c, RBP, R(c, RSP))
    case ResetStack => SetR(c, RSP, R(c, RBP))
    case Clobber(reg, value) => SetR(c, reg, value)
    case Move(reg, to) => SetR(c, to, R(c, reg))
    case MoveBack(reg, from) => SetR(c, reg, R(c, from))
    case TakeReturn(to) => PopInto(c, to)
    case PutReturn(from) => PushWord(c, R(c, from))
    case _ => c
  }

  // ---------------------------------------------------------------- the compiler's bookkeeping

  /** Where a value that the caller had is now; offsets count down from the CFA. */
  datatype Place =
    | Slot(off: int)
    | Spelled(off: int, expr: seq<Byte>)
    | Other(reg: U64)
    | Below(n: int)
    | Computed(expr: seq<Byte>)
    | Lost

  datatype Base = Stack | Frame | Expr(expr: seq<Byte>)

  /**
   The CFA is depth bytes above rsp, and frame bytes above rbp once that is set; what is
   not in saved is still where the caller left it.
   */
  datatype Shape = Shape(depth: int, frame: Option<int>, base: Base, saved: map<U64, Place>)

  function PlaceOf(saved: map<U64, Place>, id: U64): Option<Place> {
    if id in saved then Some(saved[id]) else None
  }

  predicate InSlot(p: Place) {
    p.Slot? || p.Spelled?
  }

  /** No saved word overlaps the addresses from low up to high, both relative to the CFA. */
  predicate SlotsAvoid(saved: map<U64, Place>, low: int, high: int) {
    forall id <- saved :: InSlot(saved[id]) ==> -saved[id].off + 8 <= low || high <= -saved[id].off
  }

  /** Register `to` can be overwritten. */
  predicate Free(shape: Shape, to: U64) {
    && Gpr(to) && to != RSP && to != RA
    && (to == RBP ==> !shape.base.Frame?)
    && forall id <- shape.saved :: shape.saved[id] != Other(to)
  }

  /** The act is possible in a stack of `room` bytes and loses nothing that the caller needs. */
  predicate Possible(a: Act, shape: Shape, promises: map<U64, int>, room: nat) {
    var saved := shape.saved;
    match a
    case Push(reg) =>
      Gpr(reg) && reg != RSP && reg != RA && shape.depth + 8 <= room && SlotsAvoid(saved, -shape.depth - 8, -shape.depth)
    case Pop(reg) => Free(shape, reg) && reg in saved && InSlot(saved[reg]) && saved[reg].off == shape.depth
    case Adjust(n) => 0 <= shape.depth + n <= room
    case Store(disp, bytes) => SlotsAvoid(saved, -shape.depth + disp, -shape.depth + disp + |bytes|)
    case SetFrame => RBP in saved && forall id <- saved :: saved[id] != Other(RBP)
    case ResetStack => shape.frame.Some?
    case Clobber(reg, _) => Free(shape, reg)
    case Move(reg, to) => Gpr(reg) && reg != RSP && reg !in saved && Free(shape, to) && to in saved
    case MoveBack(reg, from) => Free(shape, reg) && reg in saved && saved[reg] == Other(from) && Gpr(from)
    case TakeReturn(to) => Free(shape, to) && to in saved && shape.depth == 8 && RA in saved && saved[RA] == Slot(8)
    case PutReturn(from) =>
      RA in saved && saved[RA] == Other(from) && Gpr(from) && shape.depth == 0 && room >= 8 && SlotsAvoid(saved, -8, 0)
    case Derive(reg) => reg in promises
    case Spell(reg, _) => reg in saved && saved[reg].Slot?
    case Compute(reg, _) => Gpr(reg) && reg != RA
    case Rebase(base) => base.Frame? ==> shape.frame.Some?
  }

  function Kept(frame: Option<int>, to: U64): Option<int> {
    if to == RBP then None else frame
  }

  /** The bookkeeping after the act. */
  function Next(shape: Shape, a: Act, promises: map<U64, int>): Shape {
    var saved := shape.saved;
    match a
    case Push(reg) =>
      shape.(depth := shape.depth + 8, saved := if reg in saved then saved else saved[reg := Slot(shape.depth + 8)])
    case Pop(reg) => shape.(depth := shape.depth - 8, frame := Kept(shape.frame, reg), saved := saved - {reg})
    case Adjust(n) => shape.(depth := shape.depth + n)
    case Store(_, _) => shape
    case SetFrame => shape.(frame := Some(shape.depth), base := Frame)
    case ResetStack => if shape.frame.Some? then shape.(depth := shape.frame.value, base := Stack) else shape
    case Clobber(reg, _) => shape.(frame := Kept(shape.frame, reg), saved := if reg in saved then saved else saved[reg := Lost])
    case Move(reg, to) => shape.(frame := Kept(shape.frame, to), saved := saved[reg := Other(to)])
    case MoveBack(reg, _) => shape.(frame := Kept(shape.frame, reg), saved := saved - {reg})
    case TakeReturn(to) => shape.(depth := shape.depth - 8, frame := Kept(shape.frame, to), saved := saved[RA := Other(to)])
    case PutReturn(_) => shape.(depth := shape.depth + 8, saved := saved[RA := Slot(shape.depth + 8)])
    case Derive(reg) => if reg in promises then shape.(saved := saved[reg := Below(promises[reg])]) else shape
    case Spell(reg, expr) =>
      if reg in saved && saved[reg].Slot? then shape.(saved := saved[reg := Spelled(saved[reg].off, expr)]) else shape
    case Compute(reg, expr) => shape.(saved := saved[reg := Computed(expr)])
    case Rebase(base) => shape.(base := base)
  }

  /** The register whose place the act changes, if any. */
  function Subject(a: Act): Option<U64> {
    match a
    case Push(reg) => Some(reg)
    case Pop(reg) => Some(reg)
    case Clobber(reg, _) => Some(reg)
    case Move(reg, _) => Some(reg)
    case MoveBack(reg, _) => Some(reg)
    case TakeReturn(_) => Some(RA)
    case PutReturn(_) => Some(RA)
    case Derive(reg) => Some(reg)
    case Spell(reg, _) => Some(reg)
    case Compute(reg, _) => Some(reg)
    case _ => None
  }

  lemma OnlySubject(shape: Shape, a: Act, promises: map<U64, int>, id: U64)
    requires Subject(a) != Some(id)
    ensures PlaceOf(Next(shape, a, promises).saved, id) == PlaceOf(shape.saved, id)
  {
  }

  // ---------------------------------------------------------------- the compiler's output

  /** How an instruction says where the CFA is. */
  datatype CfaForm = OffsetOnly | OffsetFactored(f: I64) | RegOnly | Both | BothFactored(f: I64)

  /** How an instruction says where a register is; Initial is a return to what the CIE says. */
  datatype RuleForm = Plain | Unsigned(u: U64) | Factored(f: I64) | Initial

  /** How an instruction says that the code goes on. */
  datatype Travel = Jump | By(delta: nat)

  /** An act, the number of bytes its code takes, and how the compiler describes it. */
  datatype Described = Described(act: Act, length: nat, travel: Travel, cfaForm: CfaForm, ruleForm: RuleForm)

  /** The rule says that the value is in that place. */
  predicate RuleIs(rule: Rule, place: Place) {
    match place
    case Slot(off) => rule.Offset? && rule.offset == -off
    case Below(n) => rule.ValOffset? && rule.offset == -n
    case Other(reg) => rule == InRegister(reg)
    case Spelled(_, expr) => rule == AtExpression(expr)
    case Computed(expr) => rule == IsExpression(expr)
    case Lost => rule == Undefined
  }

  /** The rule leaves the register alone. */
  predicate Leaves(rule: Rule) {
    rule == Undefined || rule == SameValue
  }

  predicate RuleFits(rules: Rules, id: U64, place: Option<Place>) {
    if place.None? then id in rules ==> Leaves(rules[id]) else id in rules && RuleIs(rules[id], place.value)
  }

  function CfaReg(base: Base): U64 {
    if base.Frame? then RBP else RSP
  }

  function CfaOff(shape: Shape): int {
    if shape.base.Frame? && shape.frame.Some? then shape.frame.value else shape.depth
  }

  predicate CfaFits(cfa: CfaRule, shape: Shape) {
    if shape.base.Expr? then cfa.isExpr && cfa.expr == shape.base.expr
    else cfa == CfaRule(CfaReg(shape.base), cfa.offset, false, []) && cfa.offset == CfaOff(shape)
  }

  /** The row of the unwind table describes the shape. */
  ghost predicate RowFits(row: State, shape: Shape) {
    && CfaFits(row.cfa, shape) && (forall id <- row.rules :: Gpr(id))
    && forall id: U64 {:trigger PlaceOf(shape.saved, id)} :: RuleFits(row.rules, id, PlaceOf(shape.saved, id))
  }

  predicate SameCfa(shape: Shape, next: Shape) {
    shape.base == next.base && (shape.base.Expr? || CfaOff(shape) == CfaOff(next))
  }

  /** The form says what the CFA of `next` is, to a reader that knows the CFA of `shape`. */
  predicate CfaFormOk(cie: Cie, form: CfaForm, shape: Shape, next: Shape) {
    var kept := !shape.base.Expr? && shape.base == next.base;
    match form
    case OffsetOnly => kept && 0 <= CfaOff(next) < TWO63
    case OffsetFactored(f) => kept && f * cie.dataAlign == CfaOff(next)
    case RegOnly => !shape.base.Expr? && CfaOff(shape) == CfaOff(next)
    case Both => 0 <= CfaOff(next) < TWO63
    case BothFactored(f) => f * cie.dataAlign == CfaOff(next)
  }

  function CfaInstr(form: CfaForm, next: Shape): Instr
    requires next.base.Expr? || ((form.OffsetOnly? || form.Both?) ==> 0 <= CfaOff(next) < TWO63)
  {
    if next.base.Expr? then DefCfaExpression(next.base.expr)
    else
      match form
      case OffsetOnly => DefCfaOffset(CfaOff(next))
      case OffsetFactored(f) => DefCfaOffsetSf(f)
      case RegOnly => DefCfaRegister(CfaReg(next.base))
      case Both => DefCfa(CfaReg(next.base), CfaOff(next))
      case BothFactored(f) => DefCfaSf(CfaReg(next.base), f)
  }

  /** Factored numbers, times the data alignment, are distances from the CFA. */
  predicate Times(cie: Cie, form: RuleForm, distance: int) {
    match form
    case Unsigned(u) => Signed64(u) * cie.dataAlign == distance
    case Factored(f) => f * cie.dataAlign == distance
    case _ => false
  }

  predicate RuleFormOk(cie: Cie, initial: map<U64, Place>, id: U64, place: Option<Place>, form: RuleForm) {
    if form.Initial? then place == PlaceOf(initial, id)
    else if place.Some? && place.value.Slot? then Times(cie, form, -place.value.off)
    else if place.Some? && place.value.Below? then Times(cie, form, -place.value.n)
    else form.Plain?
  }

  function RuleInstr(id: U64, place: Option<Place>, form: RuleForm): Instr {
    if form.Initial? then Restore(id)
    else
      match place
      case None => SetSameValue(id)
      case Some(Slot(_)) =>
        if form.Unsigned? then SetOffset(id, form.u) else if form.Factored? then SetOffsetSf(id, form.f) else Nop
      case Some(Below(_)) =>
        if form.Unsigned? then SetValOffset(id, form.u) else if form.Factored? then SetValOffsetSf(id, form.f) else Nop
      case Some(Other(reg)) => SetRegister(id, reg)
      case Some(Spelled(_, expr)) => SetExpression(id, expr)
      case Some(Computed(expr)) => SetValExpression(id, expr)
      case Some(Lost) => SetUndefined(id)
  }

  function Listed(i: Option<Instr>): seq<Instr> {
    if i.Some? then [i.value] else []
  }

  /** What holds for all functions of a compilation unit: the CIE, and where it puts things at a function's first instruction. */
  datatype Setting = Setting(cie: Cie, initial: map<U64, Place>, promises: map<U64, int>, room: nat)

  /** The rules of the CIE say so. */
  ghost predicate Restores(cieRules: Rules, initial: map<U64, Place>) {
    forall id: U64 {:trigger PlaceOf(initial, id)} :: RuleFits(cieRules, id, PlaceOf(initial, id))
  }

  predicate StepOk(g: Setting, shape: Shape, at: U64, step: Described) {
    var next := Next(shape, step.act, g.promises);
    && Possible(step.act, shape, g.promises, g.room)
    && at + step.length < TWO64
    && (step.travel.By? ==> step.travel.delta * g.cie.codeAlign == step.length)
    && (SameCfa(shape, next) || next.base.Expr? || CfaFormOk(g.cie, step.cfaForm, shape, next))
    && (Subject(step.act).Some? ==>
          var id := Subject(step.act).value;
          PlaceOf(shape.saved, id) == PlaceOf(next.saved, id) ||
          RuleFormOk(g.cie, g.initial, id, PlaceOf(next.saved, id), step.ruleForm))
  }

  function CfaPart(g: Setting, shape: Shape, at: U64, step: Described): Option<Instr>
    requires StepOk(g, shape, at, step)
  {
    var next := Next(shape, step.act, g.promises);
    if SameCfa(shape, next) then None else Some(CfaInstr(step.cfaForm, next))
  }

  function RulePart(g: Setting, shape: Shape, step: Described): Option<Instr> {
    var id, next := Subject(step.act), Next(shape, step.act, g.promises);
    if id.None? || PlaceOf(shape.saved, id.value) == PlaceOf(next.saved, id.value) then None
    else Some(RuleInstr(id.value, PlaceOf(next.saved, id.value), step.ruleForm))
  }

  function TravelInstr(at: U64, step: Described): Instr
    requires at + step.length < TWO64
  {
    match step.travel
    case Jump => SetLoc(at + step.length)
    case By(delta) => AdvanceLoc(delta)
  }

  /** A function's code, all of it possible and describable. */
  predicate CodeOk(g: Setting, shape: Shape, at: U64, code: seq<Described>)
    decreases |code|
  {
    code == [] ||
    (StepOk(g, shape, at, code[0]) &&
     CodeOk(g, Next(shape, code[0].act, g.promises), at + code[0].length, code[1..]))
  }

  /** The FDE's instructions. */
  function Describe(g: Setting, shape: Shape, at: U64, code: seq<Described>): seq<Instr>
    requires CodeOk(g, shape, at, code)
    decreases |code|
  {
    if code == [] then []
    else
      [TravelInstr(at, code[0])] +
      (Listed(CfaPart(g, shape, at, code[0])) +
       (Listed(RulePart(g, shape, code[0])) +
        Describe(g, Next(shape, code[0].act, g.promises), at + code[0].length, code[1..])))
  }

  // ---------------------------------------------------------------- stopping at pc

  /** The bookkeeping when execution has come to pc: every act whose code ends at or before pc is done. */
  function ShapeAt(g: Setting, shape: Shape, at: U64, code: seq<Described>, pc: U64): Shape
    decreases |code|
  {
    if code == [] || at + code[0].length > pc then shape
    else ShapeAt(g, Next(shape, code[0].act, g.promises), at + code[0].length, code[1..], pc)
  }

  /** The machine when execution has come to pc. */
  ghost function CpuAt(c: Cpu, at: U64, code: seq<Described>, pc: U64): Cpu
    decreases |code|
  {
    if code == [] || at + code[0].length > pc then c
    else CpuAt(Exec(c, code[0].act), at + code[0].length, code[1..], pc)
  }

  // ---------------------------------------------------------------- the row for pc

  lemma Multiplied(a: I64, b: I64)
    requires -TWO63 <= a * b < TWO63
    ensures Mul64(a, b) == a * b
  {
  }

  lemma CfaApplied(g: Setting, cieRules: Rules, shape: Shape, at: U64, step: Described, s: State)
    requires StepOk(g, shape, at, step) && CfaFits(s.cfa, shape)
    requires 0 <= CfaOff(Next(shape, step.act, g.promises)) < TWO63
    ensures
      var i := CfaPart(g, shape, at, step);
      var r := if i.None? then Some(s) else Apply(g.cie, cieRules, i.value, s);
      && r.Some? && r.value.location == s.location && r.value.rules == s.rules
      && CfaFits(r.value.cfa, Next(shape, step.act, g.promises))
  {
    var next := Next(shape, step.act, g.promises);
    hide Next, Possible, Times, RuleFormOk;
    if !SameCfa(shape, next) && !next.base.Expr? && (step.cfaForm.OffsetFactored? || step.cfaForm.BothFactored?) {
      Multiplied(step.cfaForm.f, g.cie.dataAlign);
      hide Mul64;
    }
  }

  /** One instruction about a register makes its rule fit and leaves the other rules alone. */
  lemma RuleApplied(cie: Cie, cieRules: Rules, initial: map<U64, Place>, id: U64, place: Option<Place>, form: RuleForm, s: State)
    requires RuleFormOk(cie, initial, id, place, form) && Restores(cieRules, initial)
    requires place.Some? && place.value.Slot? ==> -TWO63 < place.value.off < TWO63
    requires place.Some? && place.value.Below? ==> -TWO63 < place.value.n < TWO63
    ensures
      var r := Apply(cie, cieRules, RuleInstr(id, place, form), s);
      && r.Some? && r.value.location == s.location && r.value.cfa == s.cfa
      && RuleFits(r.value.rules, id, place)
      && forall other: U64 :: other != id ==>
           (other in r.value.rules <==> other in s.rules) && (other in s.rules ==> r.value.rules[other] == s.rules[other])
  {
    assert RuleFits(cieRules, id, PlaceOf(initial, id));
    if form.Unsigned? && place.Some? && (place.value.Slot? || place.value.Below?) {
      Multiplied(Signed64(form.u), cie.dataAlign);
    } else if form.Factored? && place.Some? && (place.value.Slot? || place.value.Below?) {
      Multiplied(form.f, cie.dataAlign);
    }
  }

  /** The bounds within which all offsets stay. */
  predicate Within(shape: Shape, room: nat) {
    && room < TWO63
    && 0 <= shape.depth <= room
    && (shape.frame.Some? ==> 0 <= shape.frame.value <= room)
    && (shape.base.Frame? ==> shape.frame.Some?)
    && (forall id <- shape.saved :: Gpr(id) && Bounded(shape.saved[id], room))
    && RA in shape.saved
  }

  predicate Bounded(p: Place, room: nat) {
    && (InSlot(p) ==> 8 <= p.off <= room)
    && (p.Below? ==> -TWO63 < p.n < TWO63)
    && (p.Other? ==> Gpr(p.reg) && p.reg != RSP)
  }

  predicate Promising(promises: map<U64, int>) {
    forall id <- promises :: Gpr(id) && id != RA && -TWO63 < promises[id] < TWO63
  }

  lemma StaysWithin(g: Setting, shape: Shape, act: Act)
    requires Within(shape, g.room) && Promising(g.promises) && Possible(act, shape, g.promises, g.room)
    ensures Within(Next(shape, act, g.promises), g.room) && (Subject(act).Some? ==> Gpr(Subject(act).value))
  {
    assert Gpr(RA) && Gpr(RBP);
    hide SlotsAvoid, GprOffset;
  }

  /** Executing instructions one by one, one that does not lead above pc. */
  lemma RunToListed(cie: Cie, cieRules: Rules, i: Option<Instr>, rest: seq<Instr>, s: State, pc: U64)
    requires s.location <= pc && (i.Some? ==> Apply(cie, cieRules, i.value, s).Some?)
    ensures RunTo(cie, cieRules, Listed(i) + rest, s, pc) ==
            RunTo(cie, cieRules, rest, if i.None? then s else Apply(cie, cieRules, i.value, s).value, pc)
  {
    if i.None? {
      assert Listed(i) + rest == rest;
    } else {
      assert (Listed(i) + rest)[1..] == rest;
    }
  }

  lemma RowStep(g: Setting, cieRules: Rules, shape: Shape, at: U64, step: Described, s: State, rest: seq<Instr>, pc: U64) returns (r: State)
    requires StepOk(g, shape, at, step) && Within(shape, g.room) && Promising(g.promises)
    requires RowFits(s, shape) && s.location <= pc && Restores(cieRules, g.initial)
    ensures RowFits(r, Next(shape, step.act, g.promises)) && r.location == s.location
    ensures RunTo(g.cie, cieRules, Listed(CfaPart(g, shape, at, step)) + (Listed(RulePart(g, shape, step)) + rest), s, pc) ==
            RunTo(g.cie, cieRules, rest, r, pc)
  {
    var next := Next(shape, step.act, g.promises);
    StaysWithin(g, shape, step.act);
    CfaApplied(g, cieRules, shape, at, step, s);
    var ci, ri := CfaPart(g, shape, at, step), RulePart(g, shape, step);
    RunToListed(g.cie, cieRules, ci, Listed(ri) + rest, s, pc);
    var m := if ci.None? then s else Apply(g.cie, cieRules, ci.value, s).value;
    r := RuleStep(g, cieRules, shape, step, m);
    RunToListed(g.cie, cieRules, ri, rest, m, pc);
  }

  lemma RuleStep(g: Setting, cieRules: Rules, shape: Shape, step: Described, m: State) returns (r: State)
    requires Within(Next(shape, step.act, g.promises), g.room) && Restores(cieRules, g.initial)
    requires (Subject(step.act).Some? ==> Gpr(Subject(step.act).value)) && forall id <- m.rules :: Gpr(id)
    requires Subject(step.act).Some? ==>
               var id, next := Subject(step.act).value, Next(shape, step.act, g.promises);
               PlaceOf(shape.saved, id) == PlaceOf(next.saved, id) ||
               RuleFormOk(g.cie, g.initial, id, PlaceOf(next.saved, id), step.ruleForm)
    requires forall id: U64 {:trigger PlaceOf(shape.saved, id)} :: RuleFits(m.rules, id, PlaceOf(shape.saved, id))
    requires CfaFits(m.cfa, Next(shape, step.act, g.promises))
    ensures
      var i := RulePart(g, shape, step);
      i.Some? ==> Apply(g.cie, cieRules, i.value, m).Some?
    ensures
      var i := RulePart(g, shape, step);
      r == if i.None? then m else Apply(g.cie, cieRules, i.value, m).value
    ensures RowFits(r, Next(shape, step.act, g.promises)) && r.location == m.location
  {
    var next, subject, i := Next(shape, step.act, g.promises), Subject(step.act), RulePart(g, shape, step);
    if i.Some? {
      RuleApplied(g.cie, cieRules, g.initial, subject.value, PlaceOf(next.saved, subject.value), step.ruleForm, m);
      r := Apply(g.cie, cieRules, i.value, m).value;
    } else {
      r := m;
    }
    forall id: U64
      ensures RuleFits(r.rules, id, PlaceOf(next.saved, id))
    {
      assert RuleFits(m.rules, id, PlaceOf(shape.saved, id));
      if subject != Some(id) {
        OnlySubject(shape, step.act, g.promises, id);
      }
    }
  }

  lemma Travelled(g: Setting, cieRules: Rules, shape: Shape, at: U64, step: Described, s: State)
    requires StepOk(g, shape, at, step) && s.location == at && RowFits(s, shape)
    ensures Apply(g.cie, cieRules, TravelInstr(at, step), s) == Some(s.(location := at + step.length))
    ensures RowFits(s.(location := at + step.length), shape)
  {
    hide Next, Possible, CfaFormOk, RuleFormOk, CfaFits, RuleFits;
  }

  /**
   The compiler's description, executed until it passes pc, leaves the row that describes
   the stack and the registers at pc. Only here do the two meet: what an instruction is
   for on one side, what the interpreter makes of it on the other.
   */
  lemma {:induction false} RowAt(g: Setting, cieRules: Rules, shape: Shape, at: U64, code: seq<Described>, s: State, pc: U64)
    requires CodeOk(g, shape, at, code) && Within(shape, g.room) && Promising(g.promises)
    requires RowFits(s, shape) && s.location == at <= pc && Restores(cieRules, g.initial)
    ensures RunTo(g.cie, cieRules, Describe(g, shape, at, code), s, pc).Some?
    ensures RowFits(RunTo(g.cie, cieRules, Describe(g, shape, at, code), s, pc).value, ShapeAt(g, shape, at, code, pc))
    decreases |code|
  {
    hide Next, Possible, CfaFormOk, RuleFormOk, RowFits, Within, CfaPart, RulePart, Apply;
    if code != [] {
      var step, rest := code[0], code[1..];
      var next := Next(shape, step.act, g.promises);
      var more := Describe(g, next, at + step.length, rest);
      var tail := Listed(CfaPart(g, shape, at, step)) + (Listed(RulePart(g, shape, step)) + more);
      var moved := s.(location := at + step.length);
      assert ([TravelInstr(at, step)] + tail)[1..] == tail;
      assert Apply(g.cie, cieRules, TravelInstr(at, step), s) == Some(moved) && (RowFits(s, shape) ==> RowFits(moved, shape)) by {
        Travelled(g, cieRules, shape, at, step, s);
      }
      assert RunTo(g.cie, cieRules, Describe(g, shape, at, code), s, pc) == RunTo(g.cie, cieRules, tail, moved, pc);
      if at + step.length <= pc {
        StaysWithin(g, shape, step.act);
        var r := RowStep(g, cieRules, shape, at, step, moved, more, pc);
        RowAt(g, cieRules, next, at + step.length, rest, r, pc);
      }
    }
  }

  // ---------------------------------------------------------------- the machine keeps the places

  /** A call: the machine at the callee's first instruction, what the calling convention promises, and the stack below. */
  datatype Call = Call(entry: Cpu, promises: map<U64, int>, room: nat)

  function Cfa(call: Call): int {
    R(call.entry, RSP) + 8
  }

  /** What the caller has in a register when the call returns; for rip, where it returns to. */
  ghost function Caller(call: Call, id: U64): U64 {
    if id == RA then Word(call.entry.mem, Cfa(call) - 8)
    else if id == RSP then Wrap64(Cfa(call))
    else R(call.entry, id)
  }

  /** The stack is there, and the promises are kept. */
  ghost predicate CallOk(call: Call) {
    && 8 <= call.room && Mapped(call.entry.mem, Cfa(call) - call.room, call.room)
    && Promising(call.promises)
    && forall id <- call.promises :: Caller(call, id) == Cfa(call) - call.promises[id]
  }

  /** The caller's value of register id is where the bookkeeping says. */
  ghost predicate IsAt(call: Call, c: Cpu, id: U64, place: Option<Place>) {
    match place
    case None => id == RSP || R(c, id) == Caller(call, id)
    case Some(Slot(off)) => Word(c.mem, Cfa(call) - off) == Caller(call, id)
    case Some(Spelled(off, _)) => Word(c.mem, Cfa(call) - off) == Caller(call, id)
    case Some(Below(n)) => Caller(call, id) == Cfa(call) - n
    case Some(Other(reg)) => R(c, reg) == Caller(call, id)
    case _ => true
  }

  ghost predicate CpuFits(call: Call, c: Cpu, shape: Shape) {
    && c.mem.Keys == call.entry.mem.Keys
    && R(c, RSP) == Cfa(call) - shape.depth
    && (shape.frame.Some? ==> R(c, RBP) == Cfa(call) - shape.frame.value)
    && forall id: U64 {:trigger PlaceOf(shape.saved, id)} :: IsAt(call, c, id, PlaceOf(shape.saved, id))
  }

  lemma WriteKeeps(m: Mem, at: int, s: seq<Byte>, a: int)
    requires at + |s| <= a || a + 8 <= at
    ensures Word(WriteBytes(m, at, s), a) == Word(m, a)
  {
    if Mapped(m, a, 8) {
      assert ReadBytes(WriteBytes(m, at, s), a, 8) == ReadBytes(m, a, 8);
    }
  }

  lemma WriteReads(m: Mem, at: int, v: U64)
    requires Mapped(m, at, 8)
    ensures Word(WriteBytes(m, at, ToLE(v, 8)), at) == v
  {
    WordRoundTrip(v);
    assert ReadBytes(WriteBytes(m, at, ToLE(v, 8)), at, 8) == ToLE(v, 8);
  }

  lemma InStack(call: Call, m: Mem, off: int)
    requires CallOk(call) && m.Keys == call.entry.mem.Keys && 0 <= off <= call.room
    ensures 0 <= Cfa(call) - off < TWO64 && (8 <= off ==> Mapped(m, Cfa(call) - off, 8))
  {
    hide R;
  }

  /** Registers other than `to` are as before, memory is the same, and every place that changes is accounted for. */
  lemma RegisterSet(call: Call, c: Cpu, shape: Shape, next: Shape, to: U64, v: U64)
    requires CpuFits(call, c, shape)
    requires forall id <- shape.saved :: shape.saved[id] != Other(to)
    requires if to == RSP then v == Cfa(call) - next.depth else next.depth == shape.depth
    requires if to == RBP then next.frame.Some? ==> v == Cfa(call) - next.frame.value else next.frame == shape.frame
    requires forall id: U64 {:trigger PlaceOf(next.saved, id)} ::
               || (PlaceOf(next.saved, id) == PlaceOf(shape.saved, id) && (id == to ==> id == RSP || id in shape.saved))
               || IsAt(call, SetR(c, to, v), id, PlaceOf(next.saved, id))
    ensures CpuFits(call, SetR(c, to, v), next)
  {
    hide Caller, Word, Cfa;
    forall id: U64
      ensures IsAt(call, SetR(c, to, v), id, PlaceOf(next.saved, id))
    {
      assert IsAt(call, c, id, PlaceOf(shape.saved, id));
    }
  }

  /** Memory away from the saved words is overwritten. */
  lemma MemorySet(call: Call, c: Cpu, shape: Shape, low: int, bytes: seq<Byte>)
    requires CpuFits(call, c, shape) && SlotsAvoid(shape.saved, low, low + |bytes|)
    ensures CpuFits(call, c.(mem := WriteBytes(c.mem, Cfa(call) + low, bytes)), shape)
  {
    hide Caller, Word, Cfa;
    var c' := c.(mem := WriteBytes(c.mem, Cfa(call) + low, bytes));
    forall id: U64
      ensures IsAt(call, c', id, PlaceOf(shape.saved, id))
    {
      assert IsAt(call, c, id, PlaceOf(shape.saved, id));
      if id in shape.saved && InSlot(shape.saved[id]) {
        WriteKeeps(c.mem, Cfa(call) + low, bytes, Cfa(call) - shape.saved[id].off);
      }
    }
  }

  /** The same machine, described differently. */
  lemma Redescribed(call: Call, c: Cpu, shape: Shape, next: Shape)
    requires CpuFits(call, c, shape) && next.depth == shape.depth && next.frame == shape.frame
    requires forall id: U64 {:trigger PlaceOf(next.saved, id)} ::
               PlaceOf(next.saved, id) == PlaceOf(shape.saved, id) || IsAt(call, c, id, PlaceOf(next.saved, id))
    ensures CpuFits(call, c, next)
  {
    hide IsAt;
    forall id: U64
      ensures IsAt(call, c, id, PlaceOf(next.saved, id))
    {
      assert IsAt(call, c, id, PlaceOf(shape.saved, id));
    }
  }

  lemma RspMoved(call: Call, c: Cpu, shape: Shape, depth: int)
    requires CallOk(call) && Within(shape, call.room) && CpuFits(call, c, shape) && 0 <= depth <= call.room
    ensures 0 <= Cfa(call) - depth < TWO64 && CpuFits(call, SetR(c, RSP, Cfa(call) - depth), shape.(depth := depth))
  {
    InStack(call, c.mem, depth);
    hide CallOk, Cfa, CpuFits, IsAt, SetR;
    RegisterSet(call, c, shape, shape.(depth := depth), RSP, Cfa(call) - depth);
  }

  lemma WordPushed(call: Call, c: Cpu, shape: Shape, v: U64)
    requires CallOk(call) && Within(shape, call.room) && CpuFits(call, c, shape)
    requires shape.depth + 8 <= call.room && SlotsAvoid(shape.saved, -shape.depth - 8, -shape.depth)
    ensures CpuFits(call, PushWord(c, v), shape.(depth := shape.depth + 8))
    ensures Word(PushWord(c, v).mem, Cfa(call) - shape.depth - 8) == v
  {
    hide IsAt, Cfa, Mapped, Word, ToLE, CallOk, SlotsAvoid;
    var at := Cfa(call) - shape.depth - 8;
    InStack(call, c.mem, shape.depth + 8);
    WriteReads(c.mem, at, v);
    MemorySet(call, c, shape, -shape.depth - 8, ToLE(v, 8));
    RspMoved(call, c.(mem := WriteBytes(c.mem, at, ToLE(v, 8))), shape, shape.depth + 8);
  }

  /** A word is pushed; it may be the caller's value of a register. */
  lemma Pushed(call: Call, c: Cpu, shape: Shape, next: Shape, v: U64)
    requires CallOk(call) && Within(shape, call.room) && CpuFits(call, c, shape)
    requires shape.depth + 8 <= call.room && SlotsAvoid(shape.saved, -shape.depth - 8, -shape.depth)
    requires next.depth == shape.depth + 8 && next.frame == shape.frame
    requires forall id: U64 {:trigger PlaceOf(next.saved, id)} ::
               || PlaceOf(next.saved, id) == PlaceOf(shape.saved, id)
               || (PlaceOf(next.saved, id) == Some(Slot(shape.depth + 8)) && v == Caller(call, id))
    ensures CpuFits(call, PushWord(c, v), next)
  {
    hide PushWord, Word, CpuFits, CallOk, Within, SlotsAvoid, Caller, Cfa;
    WordPushed(call, c, shape, v);
    Redescribed(call, PushWord(c, v), shape.(depth := shape.depth + 8), next);
  }

  lemma Arrived(call: Call, c: Cpu, id: U64, to: U64)
    ensures IsAt(call, SetR(c, to, Caller(call, id)), id, if to == id then None else Some(Other(to)))
  {
    hide Caller;
  }

  /** The word on top of the stack, which is the caller's value of `id`, is popped into `to`. */
  lemma Popped(call: Call, c: Cpu, shape: Shape, next: Shape, id: U64, to: U64)
    requires CallOk(call) && Within(shape, call.room) && CpuFits(call, c, shape)
    requires id in shape.saved && InSlot(shape.saved[id]) && shape.saved[id].off == shape.depth
    requires Free(shape, to) && to in shape.saved
    requires next == shape.(depth := shape.depth - 8, frame := Kept(shape.frame, to), saved := next.saved)
    requires next.saved == (if to == id then shape.saved - {id} else shape.saved[id := Other(to)])
    ensures CpuFits(call, PopInto(c, to), next)
  {
    hide Mapped, Caller, Word, CallOk, Cfa;
    assert Word(c.mem, Cfa(call) - shape.depth) == Caller(call, id) by {
      assert IsAt(call, c, id, PlaceOf(shape.saved, id));
    }
    hide IsAt;
    InStack(call, c.mem, shape.depth);
    RspMoved(call, c, shape, shape.depth - 8);
    var c1, v := SetR(c, RSP, Cfa(call) - (shape.depth - 8)), Word(c.mem, Cfa(call) - shape.depth);
    assert PopInto(c, to) == SetR(c1, to, v) && v == Caller(call, id);
    Arrived(call, c1, id, to);
    hide CpuFits, PopInto;
    RegisterSet(call, c1, shape.(depth := shape.depth - 8), next, to, v);
  }

  lemma StackActs(call: Call, c: Cpu, shape: Shape, a: Act)
    requires CallOk(call) && Within(shape, call.room) && CpuFits(call, c, shape)
    requires Possible(a, shape, call.promises, call.room)
    requires a.Push? || a.Pop? || a.TakeReturn? || a.PutReturn?
    ensures CpuFits(call, Exec(c, a), Next(shape, a, call.promises))
  {
    hide PushWord, PopInto, CallOk, Caller, SlotsAvoid, Cfa;
    var next := Next(shape, a, call.promises);
    match a
    case Push(reg) =>
      assert IsAt(call, c, reg, PlaceOf(shape.saved, reg));
      Pushed(call, c, shape, next, R(c, reg));
    case PutReturn(from) =>
      assert IsAt(call, c, RA, PlaceOf(shape.saved, RA));
      Pushed(call, c, shape, next, R(c, from));
    case Pop(reg) => Popped(call, c, shape, next, reg, reg);
    case TakeReturn(to) => Popped(call, c, shape, next, RA, to);
  }

  lemma RegisterActs(call: Call, c: Cpu, shape: Shape, a: Act)
    requires CallOk(call) && Within(shape, call.room) && CpuFits(call, c, shape)
    requires Possible(a, shape, call.promises, call.room)
    requires a.SetFrame? || a.Clobber? || a.Move? || a.MoveBack?
    ensures CpuFits(call, Exec(c, a), Next(shape, a, call.promises))
  {
    hide CallOk, Caller, SlotsAvoid, Cfa, Within, Word;
    var next := Next(shape, a, call.promises);
    match a
    case SetFrame => RegisterSet(call, c, shape, next, RBP, R(c, RSP));
    case Clobber(reg, value) => RegisterSet(call, c, shape, next, reg, value);
    case Move(reg, to) =>
      assert IsAt(call, c, reg, PlaceOf(shape.saved, reg));
      RegisterSet(call, c, shape, next, to, R(c, reg));
    case MoveBack(reg, from) =>
      assert IsAt(call, c, reg, PlaceOf(shape.saved, reg));
      RegisterSet(call, c, shape, next, reg, R(c, from));
  }

  lemma OtherActs(call: Call, c: Cpu, shape: Shape, a: Act)
    requires CallOk(call) && Within(shape, call.room) && CpuFits(call, c, shape)
    requires Possible(a, shape, call.promises, call.room)
    requires a.Adjust? || a.ResetStack? || a.Store?
    ensures CpuFits(call, Exec(c, a), Next(shape, a, call.promises))
  {
    hide CallOk, Caller, SlotsAvoid, Cfa, Word, IsAt, SetR;
    var next := Next(shape, a, call.promises);
    if a.Store? {
      MemorySet(call, c, shape, -shape.depth + a.disp, a.bytes);
    } else {
      InStack(call, c.mem, next.depth);
      RspMoved(call, c, shape, next.depth);
    }
  }

  lemma Notes(call: Call, c: Cpu, shape: Shape, a: Act)
    requires CallOk(call) && Within(shape, call.room) && CpuFits(call, c, shape)
    requires Possible(a, shape, call.promises, call.room)
    requires a.Derive? || a.Spell? || a.Compute? || a.Rebase?
    ensures CpuFits(call, Exec(c, a), Next(shape, a, call.promises))
  {
    hide Caller, SlotsAvoid, Cfa, Word, Within, Mapped;
    if !a.Rebase? {
      assert IsAt(call, c, a.reg, PlaceOf(shape.saved, a.reg));
      Redescribed(call, c, shape, Next(shape, a, call.promises));
    }
  }

  /** Every act the compiler may use leaves the caller's values where its bookkeeping says. */
  lemma Executed(call: Call, c: Cpu, shape: Shape, a: Act)
    requires CallOk(call) && Within(shape, call.room) && CpuFits(call, c, shape)
    requires Possible(a, shape, call.promises, call.room)
    ensures CpuFits(call, Exec(c, a), Next(shape, a, call.promises))
  {
    hide CallOk, Within, CpuFits, Exec, Next, Possible;
    if a.Push? || a.Pop? || a.TakeReturn? || a.PutReturn? {
      StackActs(call, c, shape, a);
    } else if a.SetFrame? || a.Clobber? || a.Move? || a.MoveBack? {
      RegisterActs(call, c, shape, a);
    } else if a.Adjust? || a.ResetStack? || a.Store? {
      OtherActs(call, c, shape, a);
    } else {
      Notes(call, c, shape, a);
    }
  }

  /** What has been executed when pc is reached left the caller's values where the bookkeeping for pc says. */
  lemma {:induction false} CpuFitsAt(g: Setting, call: Call, c: Cpu, shape: Shape, at: U64, code: seq<Described>, pc: U64)
    requires CallOk(call) && g.promises == call.promises && g.room == call.room
    requires CodeOk(g, shape, at, code)
    requires Within(shape, g.room) && CpuFits(call, c, shape)
    ensures CpuFits(call, CpuAt(c, at, code, pc), ShapeAt(g, shape, at, code, pc))
    ensures Within(ShapeAt(g, shape, at, code, pc), g.room)
    decreases |code|
  {
    hide CallOk, Within, CpuFits, Exec, Next, Possible, CfaFormOk, RuleFormOk;
    if code != [] && at + code[0].length <= pc {
      var step, rest := code[0], code[1..];
      assert Promising(g.promises) by { KeepsPromises(call); }
      Executed(call, c, shape, step.act);
      StaysWithin(g, shape, step.act);
      CpuFitsAt(g, call, Exec(c, step.act), Next(shape, step.act, g.promises), at + step.length, rest, pc);
    }
  }

  lemma KeepsPromises(call: Call)
    requires CallOk(call)
    ensures Promising(call.promises)
  {
  }

  // ---------------------------------------------------------------- the caller recovered

  /** The tracee shows the machine's memory. */
  ghost predicate Shows(t: Tracing, m: Mem) {
    forall a: U64 {:trigger t.word(a)} :: Mapped(m, a, 8) ==> t.word(a) == Some(Word(m, a))
  }

  /** The expressions in the bookkeeping compute what the compiler says they do. */
  ghost predicate Explains(t: Tracing, call: Call, shape: Shape) {
    && (shape.base.Expr? ==> t.eval(shape.base.expr, None) == AddressResult(Wrap64(Cfa(call))))
    && forall id: U64 {:trigger PlaceOf(shape.saved, id)} :: ExplainsPlace(t, call, id, PlaceOf(shape.saved, id))
  }

  ghost predicate ExplainsPlace(t: Tracing, call: Call, id: U64, place: Option<Place>) {
    match place
    case Some(Spelled(off, expr)) => t.eval(expr, Some(Wrap64(Cfa(call)))) == AddressResult(Wrap64(Cfa(call) - off))
    case Some(Computed(expr)) => t.eval(expr, Some(Wrap64(Cfa(call)))) == AddressResult(Caller(call, id))
    case _ => true
  }

  lemma CfaFound(call: Call, c: Cpu, shape: Shape, row: State, regs: seq<Byte>, t: Tracing)
    requires CallOk(call) && Within(shape, call.room) && CpuFits(call, c, shape) && RowFits(row, shape)
    requires Explains(t, call, shape) && Snapshot(regs, c)
    ensures CfaOf(row.cfa, regs, t) == Some(Wrap64(Cfa(call)))
  {
    assert Gpr(RSP) && Gpr(RBP);
    hide GprOffset, Get, CallOk, Cfa, Word, Caller;
    InStack(call, c.mem, 0);
  }

  lemma WordShown(call: Call, c: Cpu, off: int, t: Tracing)
    requires CallOk(call) && c.mem.Keys == call.entry.mem.Keys && Shows(t, c.mem) && 8 <= off <= call.room
    ensures t.word(Wrap64(Cfa(call) - off)) == Some(Word(c.mem, Cfa(call) - off)) && 0 <= Cfa(call) - off < TWO64
  {
    hide Word, Mapped, CallOk, Cfa;
    InStack(call, c.mem, off);
  }

  lemma CallerFound(call: Call, c: Cpu, id: U64, place: Option<Place>, rules: Rules, regs: seq<Byte>, t: Tracing)
    requires CallOk(call) && c.mem.Keys == call.entry.mem.Keys && Gpr(id) && Snapshot(regs, c)
    requires IsAt(call, c, id, place) && RuleFits(rules, id, place) && (place.Some? ==> Bounded(place.value, call.room))
    requires Shows(t, c.mem) && ExplainsPlace(t, call, id, place)
    ensures id in rules ==> !RuleOutcome(rules[id], regs, Wrap64(Cfa(call)), t).Fails?
    ensures place != Some(Lost) ==> CallerValue(id, rules, regs, Wrap64(Cfa(call)), t) == Caller(call, id)
  {
    hide CallOk, Shows, GprOffset, Get, Cfa, Word, Caller, Mapped, Snapshot;
    InStack(call, c.mem, 0);
    if place.None? {
      RegisterRead(regs, c, id);
      StackOfCaller(call);
    } else if InSlot(place.value) {
      WordShown(call, c, place.value.off, t);
    } else if place.value.Other? {
      RegisterRead(regs, c, place.value.reg);
    }
  }

  lemma RegisterRead(regs: seq<Byte>, c: Cpu, id: U64)
    requires Snapshot(regs, c) && Gpr(id)
    ensures |regs| == GPR_BYTES && Get(regs, GprOffset(id).value) == R(c, id)
  {
    hide Get, GprOffset;
  }

  lemma StackOfCaller(call: Call)
    ensures Caller(call, RSP) == Wrap64(Cfa(call))
  {
    hide Word;
  }

  // ---------------------------------------------------------------- the CIE

  /** What a CIE says of one register at a function's first instruction. */
  datatype Note = Note(reg: U64, place: Place, form: RuleForm)

  function Noted(saved: map<U64, Place>, notes: seq<Note>): map<U64, Place>
    decreases |notes|
  {
    if notes == [] then saved else Noted(saved[notes[0].reg := notes[0].place], notes[1..])
  }

  /** The return address is on top of the stack; other notes repeat what the calling convention promises. */
  predicate NoteOk(cie: Cie, promises: map<U64, int>, note: Note) {
    && ((note.reg == RA && note.place == Slot(8)) || (note.reg in promises && note.place == Below(promises[note.reg])))
    && (note.place.Slot? ==> Times(cie, note.form, -note.place.off))
    && (note.place.Below? ==> Times(cie, note.form, -note.place.n))
  }

  predicate NotesOk(cie: Cie, promises: map<U64, int>, notes: seq<Note>) {
    forall k :: 0 <= k < |notes| ==> NoteOk(cie, promises, notes[k])
  }

  function EntryShape(notes: seq<Note>): Shape {
    Shape(8, None, Stack, Noted(map[], notes))
  }

  function NoteInstrs(notes: seq<Note>): seq<Instr> {
    if notes == [] then [] else [RuleInstr(notes[0].reg, Some(notes[0].place), notes[0].form)] + NoteInstrs(notes[1..])
  }

  predicate OpeningFormOk(cie: Cie, form: CfaForm) {
    form.Both? || (form.BothFactored? && form.f * cie.dataAlign == 8)
  }

  /** The CIE's instructions: the CFA is eight bytes above rsp, and the notes. */
  function Opening(form: CfaForm, notes: seq<Note>): seq<Instr> {
    [if form.BothFactored? then DefCfaSf(RSP, form.f) else DefCfa(RSP, 8)] + NoteInstrs(notes)
  }

  lemma {:induction false} NotesRun(cie: Cie, promises: map<U64, int>, notes: seq<Note>, saved: map<U64, Place>, s: State)
    requires NotesOk(cie, promises, notes) && Promising(promises) && Restores(s.rules, saved)
    requires forall id <- s.rules :: Gpr(id)
    ensures
      var r := Run(cie, map[], NoteInstrs(notes), s);
      && r.Some? && r.value.cfa == s.cfa && Restores(r.value.rules, Noted(saved, notes))
      && forall id <- r.value.rules :: Gpr(id)
    decreases |notes|
  {
    if notes != [] {
      var note, place := notes[0], Some(notes[0].place);
      assert NoteOk(cie, promises, note);
      assert Restores(map[], map[]);
      RuleApplied(cie, map[], map[], note.reg, place, note.form, s);
      var m := Apply(cie, map[], RuleInstr(note.reg, place, note.form), s).value;
      var saved' := saved[note.reg := note.place];
      forall id: U64
        ensures RuleFits(m.rules, id, PlaceOf(saved', id))
      {
        assert RuleFits(s.rules, id, PlaceOf(saved, id));
      }
      NotesRun(cie, promises, notes[1..], saved', m);
      assert NoteInstrs(notes)[1..] == NoteInstrs(notes[1..]);
    }
  }

  /** The CIE's instructions describe every call at its first instruction. */
  lemma OpeningRun(cie: Cie, promises: map<U64, int>, form: CfaForm, notes: seq<Note>)
    requires OpeningFormOk(cie, form) && NotesOk(cie, promises, notes) && Promising(promises)
    ensures
      var r := Run(cie, map[], Opening(form, notes), State(0, NO_CFA, map[], []));
      r.Some? && RowFits(r.value, EntryShape(notes)) && Restores(r.value.rules, EntryShape(notes).saved)
  {
    if form.BothFactored? {
      Multiplied(form.f, cie.dataAlign);
    }
    var s := State(0, CfaRule(RSP, 8, false, []), map[], []);
    assert Opening(form, notes)[1..] == NoteInstrs(notes);
    assert Apply(cie, map[], Opening(form, notes)[0], State(0, NO_CFA, map[], [])) == Some(s);
    NotesRun(cie, promises, notes, map[], s);
  }

  lemma {:induction false} NotedFrom(call: Call, cie: Cie, notes: seq<Note>, saved: map<U64, Place>)
    requires NotesOk(cie, call.promises, notes) && CallOk(call)
    requires forall id <- saved :: EntryPlace(call, id, saved[id])
    ensures forall id <- Noted(saved, notes) :: EntryPlace(call, id, Noted(saved, notes)[id])
    decreases |notes|
  {
    if notes != [] {
      var note := notes[0];
      assert NoteOk(cie, call.promises, note);
      NotedFrom(call, cie, notes[1..], saved[note.reg := note.place]);
    }
  }

  predicate EntryPlace(call: Call, id: U64, place: Place) {
    (id == RA && place == Slot(8)) || (id in call.promises && place == Below(call.promises[id]))
  }

  /** The machine at a function's first instruction is what the CIE describes. */
  lemma EntryFits(call: Call, cie: Cie, notes: seq<Note>)
    requires NotesOk(cie, call.promises, notes) && CallOk(call) && RA in EntryShape(notes).saved
    ensures Within(EntryShape(notes), call.room) && CpuFits(call, call.entry, EntryShape(notes))
  {
    NotedFrom(call, cie, notes, map[]);
    InStack(call, call.entry.mem, 8);
    assert Gpr(RA);
    hide GprOffset, Word, Mapped, NotesOk;
    forall id: U64
      ensures IsAt(call, call.entry, id, PlaceOf(EntryShape(notes).saved, id))
    {
    }
  }

  // ---------------------------------------------------------------- from the bytes to the caller

  /** A function as its compiler leaves it: code at `start`, and what the CIE and the FDE say about it. */
  datatype Function = Function(cie: Cie, form: CfaForm, notes: seq<Note>, start: U64, code: seq<Described>)

  function SettingOf(f: Function, call: Call): Setting {
    Setting(f.cie, EntryShape(f.notes).saved, call.promises, call.room)
  }

  /** The compiler did its work for every call like this one, and the encoded instructions are the blocks of the CIE and the FDE. */
  predicate Compiled(f: Function, call: Call, cieCode: seq<Byte>, fdeCode: seq<Byte>) {
    && OpeningFormOk(f.cie, f.form) && NotesOk(f.cie, call.promises, f.notes) && RA in EntryShape(f.notes).saved
    && CodeOk(SettingOf(f, call), EntryShape(f.notes), f.start, f.code)
    && IsCode(Opening(f.form, f.notes), f.cie.ptrEnc, cieCode)
    && IsCode(Describe(SettingOf(f, call), EntryShape(f.notes), f.start, f.code), f.cie.ptrEnc, fdeCode)
  }

  predicate IsCode(p: seq<Instr>, enc: Byte, bytes: seq<Byte>) {
    AllEncodable(p, enc, 0) && bytes == EncodeAll(p, enc, 0)
  }

  lemma CodeDecodes(p: seq<Instr>, enc: Byte, bytes: seq<Byte>)
    requires IsCode(p, enc, bytes)
    ensures Program(bytes, 0, enc) == Some(p)
  {
    assert [] + bytes == bytes;
    ProgramRoundTrip([], p, enc);
  }

  /** The row that FindRow computes from the bytes. */
  lemma RowFound(f: Function, call: Call, cieCode: seq<Byte>, fdeCode: seq<Byte>, pc: U64)
    requires CallOk(call) && Compiled(f, call, cieCode, fdeCode) && f.start <= pc
    ensures RowBytes(f.cie, cieCode, fdeCode, f.start, pc).Some?
    ensures RowFits(RowBytes(f.cie, cieCode, fdeCode, f.start, pc).value,
                    ShapeAt(SettingOf(f, call), EntryShape(f.notes), f.start, f.code, pc))
  {
    hide Encode, DecodeAt, CodeOk, NotesOk, Describe, RowFits, Within, CpuFits, Restores;
    var opening, g, shape := Opening(f.form, f.notes), SettingOf(f, call), EntryShape(f.notes);
    var blank := State(0, NO_CFA, map[], []);
    KeepsPromises(call);
    CodeDecodes(opening, f.cie.ptrEnc, cieCode);
    CodeDecodes(Describe(g, shape, f.start, f.code), f.cie.ptrEnc, fdeCode);
    RunBytesProgram(f.cie, map[], cieCode, 0, blank, NO_LIMIT);
    RunWithoutLimit(f.cie, map[], opening, blank);
    OpeningRun(f.cie, call.promises, f.form, f.notes);
    var s := Run(f.cie, map[], opening, blank).value;
    var first := s.(location := f.start);
    SameRow(s, first, shape);
    EntryFits(call, f.cie, f.notes);
    RunBytesProgram(f.cie, s.rules, fdeCode, 0, first, pc);
    RowAt(g, s.rules, shape, f.start, f.code, first, pc);
  }

  lemma SameRow(s: State, t: State, shape: Shape)
    requires RowFits(s, shape) && SameRules(s, t)
    ensures RowFits(t, shape)
  {
  }

  /** A row that fits finds everything the caller had. */
  lemma FrameFound(call: Call, c: Cpu, shape: Shape, row: State, regs: seq<Byte>, t: Tracing)
    requires CallOk(call) && Within(shape, call.room) && CpuFits(call, c, shape) && RowFits(row, shape)
    requires Explains(t, call, shape) && Shows(t, c.mem) && Snapshot(regs, c)
    ensures CfaOf(row.cfa, regs, t) == Some(Wrap64(Cfa(call)))
    ensures !SomeFails(row.rules, regs, Wrap64(Cfa(call)), t)
    ensures forall id: U64 :: Gpr(id) && PlaceOf(shape.saved, id) != Some(Lost) ==>
              CallerValue(id, row.rules, regs, Wrap64(Cfa(call)), t) == Caller(call, id)
  {
    CfaFound(call, c, shape, row, regs, t);
    hide CallOk, Snapshot, IsAt, RuleFits, Shows, ExplainsPlace, RuleOutcome, CallerValue, Caller, Cfa, GprOffset;
    forall id: U64 | Gpr(id)
      ensures id in row.rules ==> !RuleOutcome(row.rules[id], regs, Wrap64(Cfa(call)), t).Fails?
      ensures PlaceOf(shape.saved, id) != Some(Lost) ==>
                CallerValue(id, row.rules, regs, Wrap64(Cfa(call)), t) == Caller(call, id)
    {
      assert IsAt(call, c, id, PlaceOf(shape.saved, id)) && RuleFits(row.rules, id, PlaceOf(shape.saved, id));
      assert ExplainsPlace(t, call, id, PlaceOf(shape.saved, id));
      CallerFound(call, c, id, PlaceOf(shape.saved, id), row.rules, regs, t);
    }
  }

  /** The rules of a row that fits are about general-purpose registers. */
  lemma FitsIntegral(row: State, shape: Shape, room: nat)
    requires RowFits(row, shape) && Within(shape, room)
    ensures Integral(row.cfa, row.rules)
  {
    forall id <- row.rules
      ensures !FloatId(id) && (row.rules[id].InRegister? ==> !FloatId(row.rules[id].reg))
    {
      assert RuleFits(row.rules, id, PlaceOf(shape.saved, id));
    }
  }

  /**
   The caller recovered. For any function the compiler describes, any call of it and any
   pc in it, executing the function to pc and then unwinding with the bytes of its CIE and
   FDE succeeds and gives the CFA and, for every register but those reported as lost, the
   value it has in the caller; for rip that is the return address.
   */
  lemma CallerRecovered(f: Function, call: Call, cieCode: seq<Byte>, fdeCode: seq<Byte>, pc: U64, regs: seq<Byte>, t: Tracing)
    requires CallOk(call) && Compiled(f, call, cieCode, fdeCode) && f.start <= pc
    requires Snapshot(regs, CpuAt(call.entry, f.start, f.code, pc)) && Shows(t, CpuAt(call.entry, f.start, f.code, pc).mem)
    requires Explains(t, call, ShapeAt(SettingOf(f, call), EntryShape(f.notes), f.start, f.code, pc))
    ensures
      var row := RowBytes(f.cie, cieCode, fdeCode, f.start, pc);
      && row.Some? && Integral(row.value.cfa, row.value.rules)
      && CfaOf(row.value.cfa, regs, t) == Some(Wrap64(Cfa(call)))
      && !SomeFails(row.value.rules, regs, Wrap64(Cfa(call)), t)
      && forall after :: Assigned(after, row.value.rules, regs, Wrap64(Cfa(call)), t) ==> HasCallers(f, call, pc, after)
  {
    hide CallOk, CodeOk, Within, CpuFits, RowFits, Explains, Shows, NotesOk;
    var g, shape := SettingOf(f, call), EntryShape(f.notes);
    var c, now := CpuAt(call.entry, f.start, f.code, pc), ShapeAt(g, shape, f.start, f.code, pc);
    RowFound(f, call, cieCode, fdeCode, pc);
    EntryFits(call, f.cie, f.notes);
    CpuFitsAt(g, call, call.entry, shape, f.start, f.code, pc);
    var row := RowBytes(f.cie, cieCode, fdeCode, f.start, pc).value;
    FitsIntegral(row, now, call.room);
    FrameFound(call, c, now, row, regs, t);
  }

  /** The registers are the caller's, except for those the callee has lost. */
  ghost predicate HasCallers(f: Function, call: Call, pc: U64, after: seq<Byte>) {
    && |after| == GPR_BYTES
    && forall id: U64 {:trigger Gpr(id)} :: Gpr(id) ==>
         var place := PlaceOf(ShapeAt(SettingOf(f, call), EntryShape(f.notes), f.start, f.code, pc).saved, id);
         place != Some(Lost) ==> Get(after, GprOffset(id).value) == Caller(call, id)
  }

  // ---------------------------------------------------------------- the usual prologue

  /** Pushes of these registers, described as x86-64 compilers do: def_cfa_offset, and offset in units of -8. */
  function Pushes(regs: seq<U64>, depth: nat): seq<Described>
    requires depth + 8 * |regs| < TWO63
    decreases |regs|
  {
    if regs == [] then []
    else
      var length := if regs[0] < 8 then 1 else 2;
      [Described(Push(regs[0]), length, By(length), OffsetOnly, Unsigned((depth + 8) / 8))] + Pushes(regs[1..], depth + 8)
  }

  /** Any list of registers can be pushed and described so, and the recovery above holds of it. */
  lemma {:induction false} PushesOk(g: Setting, shape: Shape, at: U64, regs: seq<U64>)
    requires g.cie.codeAlign == 1 && g.cie.dataAlign == -8 && at + 2 * |regs| < TWO64
    requires shape.base.Stack? && 0 <= shape.depth && shape.depth % 8 == 0 && shape.depth + 8 * |regs| <= g.room < TWO63
    requires forall id <- shape.saved :: InSlot(shape.saved[id]) ==> shape.saved[id].off <= shape.depth
    requires forall k :: 0 <= k < |regs| ==> Gpr(regs[k]) && regs[k] != RSP && regs[k] != RA && regs[k] !in shape.saved
    requires forall j, k :: 0 <= j < k < |regs| ==> regs[j] != regs[k]
    ensures CodeOk(g, shape, at, Pushes(regs, shape.depth))
    decreases |regs|
  {
    if regs != [] {
      var step := Pushes(regs, shape.depth)[0];
      var next := Next(shape, step.act, g.promises);
      assert StepOk(g, shape, at, step);
      PushesOk(g, next, at + step.length, regs[1..]);
      assert Pushes(regs, shape.depth)[1..] == Pushes(regs[1..], next.depth);
    }
  }
}
