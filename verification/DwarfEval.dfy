/**
 The evaluation loop of DwarfExpression.Eval as it mutates its stack, and the
 proof that it computes the runs of the machine.
 */
module DwarfEval {
  import opened Bytes
  import opened Tracee
  import opened Leb128
  import opened CfiReading
  import opened CallFrame
  import opened DwarfOps
  import opened DwarfMachine

  method ReadPair(r: Reader, shape: Shape) returns (o: Read<Operands>)
    requires r.Valid() && (shape.UU? || shape.US? || shape.UB?)
    modifies r
    ensures o == OperandsAt(shape, r.data, old(r.pos), 0) && r.Moved(o)
  {
    var u := r.ReadULEB128();
    if u.Bad? {
      return Bad;
    }
    if shape.US? {
      var s := r.ReadSLEB128();
      return if s.Bad? then Bad else Got(Mixed(u.value, s.value), s.next);
    }
    var v := r.ReadULEB128();
    if v.Bad? {
      return Bad;
    }
    if shape.UU? {
      return Got(Two(u.value, v.value), v.next);
    }
    var b := r.Slice(v.value);
    o := if b.Bad? then Bad else Got(WithBlock(u.value, b.value), b.next);
  }

  method ReadOperands(r: Reader, shape: Shape) returns (o: Read<Operands>)
    requires r.Valid() && !shape.Pointer?
    modifies r
    ensures o == OperandsAt(shape, r.data, old(r.pos), 0) && r.Moved(o)
  {
    match shape
    case NoOperand => o := Got(None0, r.pos);
    case Fixed(n) =>
      var v := r.ReadFixed(n);
      o := if v.Bad? then Bad else Got(Num(v.value), v.next);
    case U =>
      var u := r.ReadULEB128();
      o := if u.Bad? then Bad else Got(One(u.value), u.next);
    case S =>
      var s := r.ReadSLEB128();
      o := if s.Bad? then Bad else Got(OneSigned(s.value), s.next);
    case B =>
      var n := r.ReadULEB128();
      if n.Bad? {
        return Bad;
      }
      var b := r.Slice(n.value);
      o := if b.Bad? then Bad else Got(Block(b.value), b.next);
    case Unknown => o := Bad;
    case UU => o := ReadPair(r, shape);
    case US => o := ReadPair(r, shape);
    case UB => o := ReadPair(r, shape);
  }

  /** The opcode byte and its operands. */
  method ReadOp(r: Reader) returns (op: Read<Op>)
    requires r.Valid()
    modifies r
    ensures op == OpAt(r.data, old(r.pos)) && r.Moved(op)
  {
    var at := r.pos;
    var b := r.ReadFixed(1);
    if b.Bad? {
      return Bad;
    }
    OneByte(r.data, at);
    NeverPointer(b.value);
    var o := ReadOperands(r, ExprShape(b.value));
    if o.Bad? {
      return Bad;
    }
    OperandsFit(ExprShape(b.value), r.data, at + 1, 0);
    op := Got(BuildOp(b.value, o.value), o.next);
  }

  class Evaluator {
    const env: Env
    var stack: seq<U64>
    var recent: Option<Location>
    var parts: seq<Part>
    var isAddress: bool

    constructor (env: Env, pushed: Option<U64>)
      ensures this.env == env && Now() == Start(pushed)
    {
      this.env := env;
      stack := if pushed.Some? then [pushed.value] else [];
      recent, parts, isAddress := None, [], true;
    }

    function Now(): Machine
      reads this
    {
      Machine(stack, recent, parts, isAddress)
    }

    /** The state is what the step gives; ok is the absence of an error. */
    ghost predicate Stepped(after: Option<Machine>, ok: bool)
      reads this
    {
      ok == after.Some? && (ok ==> Now() == after.value)
    }

    /** getCurrentLocation. */
    method CurrentLocation() returns (location: Location)
      modifies this
      ensures location == old(Current(Now())) && Now() == old(Taken(Now()))
    {
      if |stack| == 0 {
        if recent.Some? {
          location := recent.value;
          recent := None;
        } else {
          location := Nowhere;
        }
        return;
      }
      var top := stack[|stack| - 1];
      if isAddress {
        location := Address(top);
      } else {
        location := Literal(top);
        isAddress := true;
      }
      stack := stack[..|stack| - 1];
    }

    method PushIf(v: Option<U64>) returns (ok: bool)
      modifies this`stack
      ensures Stepped(old(PushSome(Now(), v)), ok)
    {
      ok := v.Some?;
      if ok {
        stack := stack + [v.value];
      }
    }

    /** Constants, registers, frame base and CFA. */
    method ExecutePush(op: Op) returns (ok: bool)
      requires op.Const? || op.Addr? || op.RegPlus? || op.InReg? || op.FrameBase? || op.CallFrameCfa?
      modifies this`stack, this`recent
      ensures Stepped(old(Effect(env, op, Now())), ok)
    {
      match op
      case Const(v) => ok := PushIf(Some(v));
      case Addr(a) => ok := PushIf(Some(Wrap64(a + env.loadBias)));
      case RegPlus(reg, off) =>
        var v := env.reg(reg);
        ok := PushIf(if v.None? then None else Some(Wrap64(v.value + off)));
      case InReg(reg) =>
        if env.inFrameInfo {
          ok := PushIf(env.reg(reg));
        } else {
          recent := Some(Register(reg));
          ok := true;
        }
      case FrameBase(off) => ok := PushIf(if env.frameBase.None? then None else Some(Wrap64(env.frameBase.value + off)));
      case CallFrameCfa => ok := PushIf(Some(env.cfa));
    }

    /** Operations that move values on the stack. */
    method ExecuteStack(op: Op) returns (ok: bool)
      requires op.Pick? || op.Drop? || op.Swap? || op.Rot?
      modifies this`stack
      ensures Stepped(old(Effect(env, op, Now())), ok)
    {
      var n := |stack|;
      ok := true;
      match op
      case Pick(i) =>
        if i >= n {
          return false;
        }
        stack := stack + [stack[n - 1 - i]];
      case Drop =>
        if n < 1 {
          return false;
        }
        stack := stack[..n - 1];
      case Swap =>
        if n < 2 {
          return false;
        }
        ghost var was := stack;
        stack := stack[n - 1 := stack[n - 2]][n - 2 := stack[n - 1]];
        assert stack == was[..n - 2] + [was[n - 1], was[n - 2]];
      case Rot =>
        if n < 3 {
          return false;
        }
        ghost var was := stack;
        stack := stack[n - 1 := stack[n - 2]][n - 2 := stack[n - 3]][n - 3 := stack[n - 1]];
        assert stack == was[..n - 3] + [was[n - 1], was[n - 3], was[n - 2]];
    }

    /** binop and DW_OP_div. */
    method ExecuteCalc(a: Arith) returns (ok: bool)
      modifies this`stack
      ensures Stepped(old(Effect(env, Calc(a), Now())), ok)
    {
      var n := |stack|;
      if n < 2 {
        return false;
      }
      var v := Calculate(a, stack[n - 2], stack[n - 1]);
      ok := v.Some?;
      if ok {
        stack := stack[..n - 2] + [v.value];
      }
    }

    /** Operations that replace the top of the stack, or compare the two topmost values. */
    method ExecuteTop(op: Op) returns (ok: bool)
      requires op.Deref? || op.Apply1? || op.PlusConst? || op.Compare?
      modifies this`stack
      ensures Stepped(old(Effect(env, op, Now())), ok)
    {
      var n := |stack|;
      if n < 1 || (op.Compare? && n < 2) {
        return false;
      }
      var top := stack[n - 1];
      ok := true;
      match op
      case Deref(size) =>
        var v := env.memory(top, size);
        if v.None? {
          return false;
        }
        stack := stack[..n - 1] + [Wrap64(v.value)];
      case Apply1(u) => stack := stack[..n - 1] + [Unarily(u, top)];
      case PlusConst(v) => stack := stack[..n - 1] + [Wrap64(top + v)];
      case Compare(r) => stack := stack[..n - 2] + [Truth(Holds(r, Signed64(stack[n - 2]), Signed64(top)))];
    }

    /** Everything else; a branch pops its condition here. */
    method ExecuteOther(op: Op) returns (ok: bool)
      requires op.Skip? || op.Bra? || op.Implicit? || op.StackValue? || op.NoOp? || op.Piece?
      modifies this
      ensures Stepped(old(Effect(env, op, Now())), ok)
    {
      ok := true;
      match op
      case Bra(_) =>
        if |stack| < 1 {
          return false;
        }
        stack := stack[..|stack| - 1];
      case Implicit(bytes) => recent := Some(Inline(bytes));
      case StackValue => isAddress := false;
      case Piece(size, off) =>
        var location := CurrentLocation();
        parts := parts + [Part(location, size, off)];
      case _ =>
    }

    method Execute(op: Op) returns (ok: bool)
      modifies this
      ensures Stepped(old(Effect(env, op, Now())), ok)
    {
      match op
      case Const(_) => ok := ExecutePush(op);
      case Addr(_) => ok := ExecutePush(op);
      case RegPlus(_, _) => ok := ExecutePush(op);
      case InReg(_) => ok := ExecutePush(op);
      case FrameBase(_) => ok := ExecutePush(op);
      case CallFrameCfa => ok := ExecutePush(op);
      case Pick(_) => ok := ExecuteStack(op);
      case Drop => ok := ExecuteStack(op);
      case Swap => ok := ExecuteStack(op);
      case Rot => ok := ExecuteStack(op);
      case Calc(a) => ok := ExecuteCalc(a);
      case Deref(_) => ok := ExecuteTop(op);
      case Apply1(_) => ok := ExecuteTop(op);
      case PlusConst(_) => ok := ExecuteTop(op);
      case Compare(_) => ok := ExecuteTop(op);
      case _ => ok := ExecuteOther(op);
    }

    /** One turn of the loop, as the transition t; a jump past the end is kept as the end. */
    method Turn(r: Reader) returns (ok: bool, ghost t: Transition)
      requires r.Valid() && r.pos < |r.data|
      modifies this, r
      ensures r.Valid() && ok == t.Go? && t == old(StepAt(env, r.data, r.pos, Now()))
      ensures ok ==> Now() == t.m && r.pos == AtMost(t.pos, |r.data|)
    {
      t := StepAt(env, r.data, r.pos, Now());
      var op := ReadOp(r);
      if op.Bad? {
        return false, t;
      }
      var delta := Jump(op.value, Now());
      ok := Execute(op.value);
      if ok && delta != 0 {
        ok := r.Skip(delta);
      }
    }

    /** One turn of a run whose outcome will be `all`. */
    method Advance(r: Reader, left: nat, ghost all: Outcome) returns (ok: bool)
      requires r.Valid() && r.pos < |r.data| && left > 0 && RunFor(env, r.data, r.pos, Now(), left) == all
      modifies this, r
      ensures r.Valid()
      ensures if ok then RunFor(env, r.data, r.pos, Now(), left - 1) == all else all == Failed
    {
      ghost var data, pos, m := r.data, r.pos, Now();
      ghost var t;
      ok, t := Turn(r);
      RunTurn(env, data, pos, m, t, left);
    }

    /** The loop, cut off after `fuel` turns. */
    method Run(r: Reader, fuel: nat) returns (outcome: Outcome)
      requires r.Valid()
      modifies this, r
      ensures outcome == old(RunFor(env, r.data, r.pos, Now(), fuel))
      ensures outcome.Finished? ==> outcome.m == Now()
    {
      var left := fuel;
      ghost var all := RunFor(env, r.data, r.pos, Now(), fuel);
      while r.pos < |r.data|
        invariant r.Valid() && left >= 0 && RunFor(env, r.data, r.pos, Now(), left) == all
        decreases left
      {
        if left == 0 {
          return Unfinished;
        }
        var ok := Advance(r, left, all);
        if !ok {
          return Failed;
        }
        left := left - 1;
      }
      outcome := Finished(Now());
    }

    /**
     Eval. It returns the location or pieces of the run's last state, or an error,
     and for a run that does not end nothing at all.
     */
    method Eval(data: seq<Byte>, fuel: nat) returns (result: Option<Result>, ended: bool)
      modifies this
      ensures data == [] ==> result == Some(Single(Nowhere)) && ended
      ensures data != [] ==> ended == !old(RunFor(env, data, 0, Now(), fuel)).Unfinished?
      ensures data != [] ==>
        result == match old(RunFor(env, data, 0, Now(), fuel)) case Finished(m) => Some(ResultOf(m)) case _ => None
    {
      if |data| == 0 {
        return Some(Single(Nowhere)), true;
      }
      var r := new Reader(data, 0, 0);
      var outcome := Run(r, fuel);
      if !outcome.Finished? {
        return None, outcome.Failed?;
      }
      if |parts| > 0 {
        return Some(Composite(parts)), true;
      }
      var location := CurrentLocation();
      return Some(Single(location)), true;
    }
  }

  function AtMost(pos: nat, end: nat): nat {
    if pos <= end then pos else end
  }

  /** One turn of a run that is not over. */
  lemma IterateTurn(step: (nat, Machine) -> Transition, end: nat, pos: nat, m: Machine, fuel: nat)
    requires pos < end && fuel > 0
    ensures Iterate(step, end, pos, m, fuel) ==
            match step(pos, m) case Fault => Failed case Go(p, m') => Iterate(step, end, AtMost(p, end), m', fuel - 1)
  {
    match step(pos, m)
    case Fault =>
    case Go(p, m') => PastTheEnd(step, end, p, m', fuel - 1);
  }

  lemma RunTurn(env: Env, data: seq<Byte>, pos: nat, m: Machine, t: Transition, fuel: nat)
    requires pos < |data| && fuel > 0 && t == StepAt(env, data, pos, m)
    ensures RunFor(env, data, pos, m, fuel) == if t.Fault? then Failed else RunFor(env, data, AtMost(t.pos, |data|), t.m, fuel - 1)
  {
    IterateTurn(Stepper(env, data), |data|, pos, m, fuel);
  }

  /** A position past the end is as good as the end. */
  lemma PastTheEnd(step: (nat, Machine) -> Transition, end: nat, pos: nat, m: Machine, fuel: nat)
    ensures Iterate(step, end, AtMost(pos, end), m, fuel) == Iterate(step, end, pos, m, fuel)
  {
  }
}
