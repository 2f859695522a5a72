/**
 DwarfExpression.Eval: the stack machine for DWARF expressions, and what it does
 over whole programs.
 */
module DwarfMachine {
  import opened Bytes
  import opened Bits
  import opened Tracee
  import opened Leb128
  import opened CfiReading
  import opened CallFrame
  import opened DwarfOps

  /** Where a value, or part of one, is found. */
  datatype Location =
    | Nowhere
    | Address(addr: U64)
    | Register(reg: U64)
    | Literal(value: U64)
    | Inline(bytes: seq<Byte>)

  datatype Part = Part(location: Location, bitSize: U64, bitOffset: U64)

  datatype Result = Single(location: Location) | Composite(parts: seq<Part>)

  /** The variables of the evaluation loop. */
  datatype Machine = Machine(stack: seq<U64>, recent: Option<Location>, parts: seq<Part>, isAddress: bool)

  /**
   What an expression can ask for: a register that holds an integer, the
   little-endian value of some bytes of memory, the CFA, the frame base.
   */
  datatype Env = Env(
    reg: U64 -> Option<U64>,
    memory: (U64, Byte) -> Option<nat>,
    cfa: U64,
    frameBase: Option<U64>,
    loadBias: U64,
    inFrameInfo: bool)

  // ---------------------------------------------------------------- arithmetic

  /** Division that rounds towards zero, as Go does. */
  function TruncDiv(x: int, y: int): int
    requires y != 0
  {
    var q := Magnitude(x) / Magnitude(y);
    if (x < 0) == (y < 0) then q else -q
  }

  function Magnitude(x: int): nat {
    if x < 0 then -x else x
  }

  /** Binary operations on uint64; None is the error on division by zero. */
  function Calculate(a: Arith, x: U64, y: U64): Option<U64> {
    match a
    case Plus => Some(Wrap64(x + y))
    case Minus => Some(Wrap64(x - y))
    case Mul => Some(Wrap64(x * y))
    case Mod => Some(if y == 0 then 0 else x % y)
    case Div => if y == 0 then None else Some(Wrap64(TruncDiv(Signed64(x), Signed64(y))))
    case Shl => Some(if y < 64 then Wrap64(x * Pow2(y)) else 0)
    case Shr => Some(if y < 64 then Wrap64(x / Pow2(y)) else 0)
    case Shra => Some(if y < 64 then Wrap64(Signed64(x) / Pow2(y)) else if x < TWO63 then 0 else TWO64 - 1)
    case And => Some(Wrap64(Bitwise(AndGate, x, y)))
    case Or => Some(Wrap64(Bitwise(OrGate, x, y)))
    case Xor => Some(Wrap64(Bitwise(XorGate, x, y)))
  }

  function Unarily(u: Unary, x: U64): U64 {
    match u
    case Abs => Wrap64(Magnitude(Signed64(x)))
    case Neg => Wrap64(0 - Signed64(x))
    case Not => TWO64 - 1 - x
  }

  predicate Holds(r: Relation, x: int, y: int) {
    match r
    case Eq => x == y
    case Ge => x >= y
    case Gt => x > y
    case Le => x <= y
    case Lt => x < y
    case Ne => x != y
  }

  function Truth(b: bool): U64 {
    if b then 1 else 0
  }

  // ---------------------------------------------------------------- steps

  function Push(m: Machine, v: U64): Machine {
    m.(stack := m.stack + [v])
  }

  function PushSome(m: Machine, v: Option<U64>): Option<Machine> {
    if v.None? then None else Some(Push(m, v.value))
  }

  /** The stack without its top n values, and v on top of it. */
  function Replace(m: Machine, n: nat, v: U64): Machine
    requires n <= |m.stack|
  {
    m.(stack := m.stack[..|m.stack| - n] + [v])
  }

  /** Value i from the top. */
  function Top(m: Machine, i: nat): U64
    requires i < |m.stack|
  {
    m.stack[|m.stack| - 1 - i]
  }

  /** getCurrentLocation: the value. */
  function Current(m: Machine): Location {
    if m.stack == [] then (if m.recent.Some? then m.recent.value else Nowhere)
    else if m.isAddress then Address(Top(m, 0))
    else Literal(Top(m, 0))
  }

  /** getCurrentLocation: what is left. */
  function Taken(m: Machine): Machine {
    if m.stack == [] then m.(recent := None)
    else m.(stack := m.stack[..|m.stack| - 1], isAddress := true)
  }

  /** An offset from a value that may be unavailable. */
  function Shifted(v: Option<U64>, offset: I64): Option<U64> {
    if v.None? then None else Some(Wrap64(v.value + offset))
  }

  /** The effect of an operation, apart from a jump; None is an error. */
  function Effect(env: Env, op: Op, m: Machine): Option<Machine> {
    var n := |m.stack|;
    match op
    case Const(v) => Some(Push(m, v))
    case Addr(a) => Some(Push(m, Wrap64(a + env.loadBias)))
    case RegPlus(reg, off) => PushSome(m, Shifted(env.reg(reg), off))
    case InReg(reg) => if env.inFrameInfo then PushSome(m, env.reg(reg)) else Some(m.(recent := Some(Register(reg))))
    case FrameBase(off) => PushSome(m, Shifted(env.frameBase, off))
    case CallFrameCfa => Some(Push(m, env.cfa))
    case Pick(i) => if i >= n then None else Some(Push(m, Top(m, i)))
    case Drop => if n < 1 then None else Some(m.(stack := m.stack[..n - 1]))
    case Swap => if n < 2 then None else Some(m.(stack := m.stack[..n - 2] + [Top(m, 0), Top(m, 1)]))
    case Rot => if n < 3 then None else Some(m.(stack := m.stack[..n - 3] + [Top(m, 0), Top(m, 2), Top(m, 1)]))
    case Deref(size) =>
      if n < 1 || env.memory(Top(m, 0), size).None? then None
      else Some(Replace(m, 1, Wrap64(env.memory(Top(m, 0), size).value)))
    case Calc(a) =>
      if n < 2 then None
      else
        (match Calculate(a, Top(m, 1), Top(m, 0))
         case None => None
         case Some(v) => Some(Replace(m, 2, v)))
    case Apply1(u) => if n < 1 then None else Some(Replace(m, 1, Unarily(u, Top(m, 0))))
    case PlusConst(v) => if n < 1 then None else Some(Replace(m, 1, Wrap64(Top(m, 0) + v)))
    case Compare(r) =>
      if n < 2 then None else Some(Replace(m, 2, Truth(Holds(r, Signed64(Top(m, 1)), Signed64(Top(m, 0))))))
    case Skip(_) => Some(m)
    case Bra(_) => if n < 1 then None else Some(m.(stack := m.stack[..n - 1]))
    case Implicit(bytes) => Some(m.(recent := Some(Inline(bytes))))
    case StackValue => Some(m.(isAddress := false))
    case NoOp => Some(m)
    case Piece(size, off) => Some(Taken(m).(parts := m.parts + [Part(Current(m), size, off)]))
  }

  /** How far the operation jumps from the position after it. */
  function Jump(op: Op, m: Machine): int {
    if op.Skip? then op.delta
    else if op.Bra? && m.stack != [] && Top(m, 0) != 0 then op.delta
    else 0
  }

  /** The end of a run: the machine, an error, or not yet. */
  datatype Outcome = Finished(m: Machine) | Failed | Unfinished

  /** One transition: an error, or a position and a state. */
  datatype Transition = Fault | Go(pos: nat, m: Machine)

  /** The operation at pos. A jump past the end ends the run; one before the start fails. */
  function StepAt(env: Env, data: seq<Byte>, pos: nat, m: Machine): Transition {
    if pos >= |data| then Fault
    else
      match OpAt(data, pos)
      case Bad => Fault
      case Got(op, next) =>
        match Effect(env, op, m)
        case None => Fault
        case Some(m') => if next + Jump(op, m) < 0 then Fault else Go(next + Jump(op, m), m')
  }

  /** At most `fuel` transitions, until the position reaches the end. */
  function Iterate(step: (nat, Machine) -> Transition, end: nat, pos: nat, m: Machine, fuel: nat): Outcome
    decreases fuel
  {
    if pos >= end then Finished(m)
    else if fuel == 0 then Unfinished
    else
      match step(pos, m)
      case Fault => Failed
      case Go(p, m') => Iterate(step, end, p, m', fuel - 1)
  }

  function Stepper(env: Env, data: seq<Byte>): (nat, Machine) -> Transition {
    (pos: nat, m: Machine) => StepAt(env, data, pos, m)
  }

  /** At most `fuel` operations from pos. */
  function RunFor(env: Env, data: seq<Byte>, pos: nat, m: Machine, fuel: nat): Outcome {
    Iterate(Stepper(env, data), |data|, pos, m, fuel)
  }

  /** The result of the final state. */
  function ResultOf(m: Machine): Result {
    if m.parts != [] then Composite(m.parts) else Single(Current(m))
  }

  function Start(pushed: Option<U64>): Machine {
    Machine(if pushed.Some? then [pushed.value] else [], None, [], true)
  }

  // ---------------------------------------------------------------- whole runs

  /** A run that has ended does not change with more fuel. */
  lemma {:induction false} MoreFuel(step: (nat, Machine) -> Transition, end: nat, pos: nat, m: Machine, fuel: nat, more: nat)
    requires !Iterate(step, end, pos, m, fuel).Unfinished? && fuel <= more
    ensures Iterate(step, end, pos, m, more) == Iterate(step, end, pos, m, fuel)
    decreases fuel
  {
    if pos < end {
      match step(pos, m)
      case Fault =>
      case Go(p, m') => MoreFuel(step, end, p, m', fuel - 1, more - 1);
    }
  }

  /** Whether a run ends, and how, does not depend on how long one is prepared to wait. */
  lemma SameEnd(env: Env, data: seq<Byte>, pos: nat, m: Machine, fuel: nat, more: nat)
    requires !RunFor(env, data, pos, m, fuel).Unfinished? && !RunFor(env, data, pos, m, more).Unfinished?
    ensures RunFor(env, data, pos, m, fuel) == RunFor(env, data, pos, m, more)
  {
    if fuel <= more {
      MoreFuel(Stepper(env, data), |data|, pos, m, fuel, more);
    } else {
      MoreFuel(Stepper(env, data), |data|, pos, m, more, fuel);
    }
  }

  /** The positions in `at` are closed under execution, and no branch among them goes back. */
  ghost predicate Forward(data: seq<Byte>, at: iset<nat>) {
    forall p <- at :: ForwardAt(data, p, at)
  }

  ghost predicate ForwardAt(data: seq<Byte>, p: nat, at: iset<nat>) {
    p < |data| && OpAt(data, p).Got? ==>
      var op, next := OpAt(data, p).value, OpAt(data, p).next;
      && next in at
      && (op.Skip? || op.Bra? ==> op.delta >= 0 && next + op.delta in at)
  }

  /** Transitions lead from positions in `at` to later ones in `at`. */
  ghost predicate Advances(step: (nat, Machine) -> Transition, at: iset<nat>) {
    forall p: nat, m: Machine :: p in at && step(p, m).Go? ==> step(p, m).pos > p && step(p, m).pos in at
  }

  lemma {:induction false} AdvancesEnds(step: (nat, Machine) -> Transition, end: nat, at: iset<nat>, pos: nat, m: Machine, fuel: nat)
    requires Advances(step, at) && pos in at && pos + fuel >= end
    ensures !Iterate(step, end, pos, m, fuel).Unfinished?
    decreases fuel
  {
    if pos < end && step(pos, m).Go? {
      AdvancesEnds(step, end, at, step(pos, m).pos, step(pos, m).m, fuel - 1);
    }
  }

  lemma ForwardAdvances(env: Env, data: seq<Byte>, at: iset<nat>, p: nat, m: Machine)
    requires ForwardAt(data, p, at) && StepAt(env, data, p, m).Go?
    ensures StepAt(env, data, p, m).pos > p && StepAt(env, data, p, m).pos in at
  {
    var op, next := OpAt(data, p).value, OpAt(data, p).next;
    JumpIs(op, m);
  }

  lemma JumpIs(op: Op, m: Machine)
    ensures Jump(op, m) == 0 || ((op.Skip? || op.Bra?) && Jump(op, m) == op.delta)
  {
  }

  /** A program whose branches all go forward ends within one step per byte. */
  lemma ForwardEnds(env: Env, data: seq<Byte>, at: iset<nat>, pos: nat, m: Machine, fuel: nat)
    requires Forward(data, at) && pos in at && pos + fuel >= |data|
    ensures !RunFor(env, data, pos, m, fuel).Unfinished?
  {
    var step := Stepper(env, data);
    forall p: nat, m: Machine | p in at && step(p, m).Go?
      ensures step(p, m).pos > p && step(p, m).pos in at
    {
      assert ForwardAt(data, p, at);
      ForwardAdvances(env, data, at, p, m);
    }
    AdvancesEnds(step, |data|, at, pos, m, fuel);
  }

  /** A branch-free sequence of operations. */
  function Fold(apply: (Op, Machine) -> Option<Machine>, ops: seq<Op>, m: Machine): Option<Machine> {
    if ops == [] then Some(m)
    else
      match apply(ops[0], m)
      case None => None
      case Some(m') => Fold(apply, ops[1..], m')
  }

  function Applier(env: Env): (Op, Machine) -> Option<Machine> {
    (op: Op, m: Machine) => Effect(env, op, m)
  }

  function Exec(env: Env, ops: seq<Op>, m: Machine): Option<Machine> {
    Fold(Applier(env), ops, m)
  }

  /** Branch-free sequences compose. */
  lemma {:induction false} FoldAppend(apply: (Op, Machine) -> Option<Machine>, p: seq<Op>, q: seq<Op>, m: Machine)
    ensures Fold(apply, p + q, m) == match Fold(apply, p, m) case None => None case Some(m') => Fold(apply, q, m')
  {
    if p == [] {
      assert p + q == q;
    } else {
      assert (p + q)[1..] == p[1..] + q;
      match apply(p[0], m)
      case None =>
      case Some(m') => FoldAppend(apply, p[1..], q, m');
    }
  }

  /** The transition of an operation that does not branch. */
  function Moves(after: Option<Machine>, next: nat): Transition {
    match after case None => Fault case Some(m) => Go(next, m)
  }

  /** ops[k] is what the transition at position at[k] applies, on the way to at[k + 1]. */
  ghost predicate Along(step: (nat, Machine) -> Transition, apply: (Op, Machine) -> Option<Machine>, ops: seq<Op>, at: seq<nat>) {
    && |at| == |ops| + 1
    && forall k, m :: 0 <= k < |ops| ==> step(at[k], m) == Moves(apply(ops[k], m), at[k + 1])
  }

  /** How a run goes on after a sequence of operations. */
  function Continue(step: (nat, Machine) -> Transition, end: nat, next: nat, after: Option<Machine>, fuel: nat): Outcome {
    match after
    case None => Failed
    case Some(m) => Iterate(step, end, next, m, fuel)
  }

  lemma {:induction false} IterateAlong(
    step: (nat, Machine) -> Transition, apply: (Op, Machine) -> Option<Machine>, end: nat, ops: seq<Op>, at: seq<nat>, m: Machine, fuel: nat)
    requires Along(step, apply, ops, at) && forall k :: 0 <= k < |ops| ==> at[k] < end
    ensures Iterate(step, end, at[0], m, fuel + |ops|) == Continue(step, end, at[|ops|], Fold(apply, ops, m), fuel)
  {
    if ops != [] {
      assert step(at[0], m) == Moves(apply(ops[0], m), at[0 + 1]);
      match apply(ops[0], m)
      case None =>
      case Some(m') =>
        AlongTail(step, apply, ops, at);
        IterateAlong(step, apply, end, ops[1..], at[1..], m', fuel);
    }
  }

  lemma AlongTail(step: (nat, Machine) -> Transition, apply: (Op, Machine) -> Option<Machine>, ops: seq<Op>, at: seq<nat>)
    requires ops != [] && Along(step, apply, ops, at)
    ensures Along(step, apply, ops[1..], at[1..])
  {
    forall k, m | 0 <= k < |ops[1..]|
      ensures step(at[1..][k], m) == Moves(apply(ops[1..][k], m), at[1..][k + 1])
    {
      assert step(at[k + 1], m) == Moves(apply(ops[k + 1], m), at[k + 1 + 1]);
    }
  }

  // ---------------------------------------------------------------- bytes

  predicate Straight(ops: seq<Op>) {
    forall op <- ops :: !op.Skip? && !op.Bra? && EncodableOp(op)
  }

  function EncodeOps(ops: seq<Op>): seq<Byte> {
    if ops == [] then [] else EncodeOp(ops[0]) + EncodeOps(ops[1..])
  }

  /** The bytes from at[k] to at[k + 1] are ops[k]. */
  predicate Decodes(data: seq<Byte>, ops: seq<Op>, at: seq<nat>) {
    && |at| == |ops| + 1
    && (ops != [] ==> DecodesTo(data, at[0], ops[0], at[1]) && Decodes(data, ops[1..], at[1..]))
  }

  predicate DecodesTo(data: seq<Byte>, pos: nat, op: Op, next: nat) {
    pos < |data| && OpAt(data, pos) == Got(op, next)
  }

  lemma {:induction false} DecodesAt(data: seq<Byte>, ops: seq<Op>, at: seq<nat>, k: nat)
    requires Decodes(data, ops, at) && k < |ops|
    ensures DecodesTo(data, at[k], ops[k], at[k + 1])
  {
    if k > 0 {
      DecodesAt(data, ops[1..], at[1..], k - 1);
    }
  }

  lemma Regroup(prefix: seq<Byte>, x: seq<Byte>, y: seq<Byte>, rest: seq<Byte>)
    ensures prefix + (x + y) + rest == (prefix + x) + y + rest
    ensures prefix + (x + y) + rest == prefix + x + (y + rest)
    ensures |prefix + x| == |prefix| + |x|
  {
  }

  /** Encoded operations decode, wherever they stand, at the positions `at`. */
  lemma {:induction false} DecodesEncoded(prefix: seq<Byte>, ops: seq<Op>, rest: seq<Byte>, data: seq<Byte>) returns (at: seq<nat>)
    requires Straight(ops) && data == prefix + EncodeOps(ops) + rest
    ensures Decodes(data, ops, at) && at[0] == |prefix| && at[|ops|] == |prefix + EncodeOps(ops)|
    decreases |ops|
  {
    if ops == [] {
      at := [|prefix|];
    } else {
      SplitFirst(prefix, ops, rest);
      var tail := DecodesEncoded(prefix + EncodeOp(ops[0]), ops[1..], rest, data);
      FirstDecodes(prefix, ops[0], EncodeOps(ops[1..]) + rest, data);
      at := [|prefix|] + tail;
      DecodesCons(data, ops, at, tail);
    }
  }

  lemma DecodesCons(data: seq<Byte>, ops: seq<Op>, at: seq<nat>, tail: seq<nat>)
    requires ops != [] && |tail| == |ops| && at != [] && at == [at[0]] + tail
    requires DecodesTo(data, at[0], ops[0], tail[0]) && Decodes(data, ops[1..], tail)
    ensures Decodes(data, ops, at)
  {
    assert at[1..] == tail;
  }

  lemma SplitFirst(prefix: seq<Byte>, ops: seq<Op>, rest: seq<Byte>)
    requires ops != []
    ensures prefix + EncodeOps(ops) + rest == (prefix + EncodeOp(ops[0])) + EncodeOps(ops[1..]) + rest
    ensures prefix + EncodeOps(ops) + rest == prefix + EncodeOp(ops[0]) + (EncodeOps(ops[1..]) + rest)
    ensures |prefix + EncodeOps(ops)| == |(prefix + EncodeOp(ops[0])) + EncodeOps(ops[1..])|
  {
    Regroup(prefix, EncodeOp(ops[0]), EncodeOps(ops[1..]), rest);
  }

  lemma FirstDecodes(prefix: seq<Byte>, op: Op, tail: seq<Byte>, data: seq<Byte>)
    requires EncodableOp(op) && data == prefix + EncodeOp(op) + tail
    ensures DecodesTo(data, |prefix|, op, |prefix + EncodeOp(op)|)
  {
    OpRoundTrip(prefix, op, tail);
  }

  /** One operation that does not branch. */
  lemma StepStraight(env: Env, data: seq<Byte>, pos: nat, op: Op, next: nat, m: Machine)
    requires DecodesTo(data, pos, op, next) && !op.Skip? && !op.Bra?
    ensures StepAt(env, data, pos, m) == Moves(Effect(env, op, m), next)
  {
    assert Jump(op, m) == 0;
  }

  lemma StraightAlong(env: Env, data: seq<Byte>, ops: seq<Op>, at: seq<nat>)
    requires Straight(ops) && Decodes(data, ops, at)
    ensures Along(Stepper(env, data), Applier(env), ops, at)
  {
    var step, apply := Stepper(env, data), Applier(env);
    forall k, m | 0 <= k < |ops|
      ensures step(at[k], m) == Moves(apply(ops[k], m), at[k + 1])
    {
      DecodesAt(data, ops, at, k);
      StepStraight(env, data, at[k], ops[k], at[k + 1], m);
    }
  }

  /** Running branch-free code is executing its operations and going on behind it. */
  lemma RunDecoded(env: Env, data: seq<Byte>, ops: seq<Op>, at: seq<nat>, m: Machine, fuel: nat)
    requires Straight(ops) && Decodes(data, ops, at)
    ensures RunFor(env, data, at[0], m, fuel + |ops|) ==
            Continue(Stepper(env, data), |data|, at[|ops|], Exec(env, ops, m), fuel)
  {
    StraightAlong(env, data, ops, at);
    forall k | 0 <= k < |ops|
      ensures at[k] < |data|
    {
      DecodesAt(data, ops, at, k);
    }
    IterateAlong(Stepper(env, data), Applier(env), |data|, ops, at, m, fuel);
  }

  /** The same for encoded operations, wherever they stand. */
  lemma RunStraight(env: Env, prefix: seq<Byte>, ops: seq<Op>, rest: seq<Byte>, data: seq<Byte>, m: Machine, fuel: nat)
    requires Straight(ops) && data == prefix + EncodeOps(ops) + rest
    ensures RunFor(env, data, |prefix|, m, fuel + |ops|) ==
            Continue(Stepper(env, data), |data|, |prefix + EncodeOps(ops)|, Exec(env, ops, m), fuel)
  {
    var at := DecodesEncoded(prefix, ops, rest, data);
    RunDecoded(env, data, ops, at, m, fuel);
  }
}
