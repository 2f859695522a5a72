/**
 Expression trees and their postfix code: the machine computes the value of the
 tree, modulo 2^64.
 */
module DwarfTrees {
  import opened Bytes
  import opened Bits
  import opened Tracee
  import opened Leb128
  import opened DwarfOps
  import opened DwarfMachine

  /**
   Expressions over constants of any size, registers, the frame base, addresses in the file, the
   CFA, memory and the operators; values may be bound, one or two at a time, and used again.
   */
  datatype Tree =
    | Num(value: int)
    | Reg(reg: U64, offset: I64)
    | RegValue(reg: U64)
    | Local(offset: I64)
    | Static(fileAddr: U64)
    | Cfa
    | Var(index: nat)
    | Binary(arith: Arith, left: Tree, right: Tree)
    | Monadic(unary: Unary, arg: Tree)
    | Related(relation: Relation, left: Tree, right: Tree)
    | Added(arg: Tree, constant: U64)
    | Load(size: Byte, arg: Tree)
    | Let(bound: Tree, body: Tree)
    | LetBoth(first: Tree, second: Tree, body: Tree)
    | Padded(arg: Tree)

  /** The signed 64-bit number that represents x. */
  function Sig(x: int): I64 {
    Signed64(Wrap64(x))
  }

  /**
   Arithmetic on the integers. Sums, differences, products and left shifts are not
   reduced; the other operators look at the 64-bit representation of their operands,
   signed for division and arithmetic shift.
   */
  function ArithValue(a: Arith, x: int, y: int): Option<int> {
    match a
    case Plus => Some(x + y)
    case Minus => Some(x - y)
    case Mul => Some(x * y)
    case Shl => Some(x * Pow2(Wrap64(y)))
    case Mod => Some(if Wrap64(y) == 0 then 0 else Wrap64(x) % Wrap64(y))
    case Div => if Wrap64(y) == 0 then None else Some(TruncDiv(Sig(x), Sig(y)))
    case Shr => Some(Wrap64(x) / Pow2(Wrap64(y)))
    case Shra => Some(Sig(x) / Pow2(Wrap64(y)))
    case And => Some(Bitwise(AndGate, Wrap64(x), Wrap64(y)))
    case Or => Some(Bitwise(OrGate, Wrap64(x), Wrap64(y)))
    case Xor => Some(Bitwise(XorGate, Wrap64(x), Wrap64(y)))
  }

  function UnaryValue(u: Unary, x: int): int {
    match u
    case Abs => Magnitude(Sig(x))
    case Neg => -x
    case Not => -1 - x
  }

  /**
   The value of a tree on the integers, given those of the variables; None when a register, the frame
   base or memory is missing, or a division is by zero.
   */
  function TreeValue(env: Env, t: Tree, vals: seq<int>): Option<int> {
    match t
    case Num(v) => Some(v)
    case Reg(reg, off) => (match env.reg(reg) case None => None case Some(v) => Some(v + off))
    case RegValue(reg) => (match env.reg(reg) case None => None case Some(v) => Some(v))
    case Local(off) => (match env.frameBase case None => None case Some(base) => Some(base + off))
    case Static(a) => Some(a + env.loadBias)
    case Cfa => Some(env.cfa)
    case Var(i) => if i < |vals| then Some(vals[i]) else None
    case Binary(a, l, r) =>
      (match (TreeValue(env, l, vals), TreeValue(env, r, vals))
       case (Some(x), Some(y)) => ArithValue(a, x, y)
       case _ => None)
    case Monadic(u, arg) => (match TreeValue(env, arg, vals) case None => None case Some(x) => Some(UnaryValue(u, x)))
    case Related(rel, l, r) =>
      (match (TreeValue(env, l, vals), TreeValue(env, r, vals))
       case (Some(x), Some(y)) => Some(Truth(Holds(rel, Sig(x), Sig(y))))
       case _ => None)
    case Added(arg, c) => (match TreeValue(env, arg, vals) case None => None case Some(x) => Some(x + c))
    case Load(size, arg) =>
      (match TreeValue(env, arg, vals)
       case None => None
       case Some(x) => match env.memory(Wrap64(x), size) case None => None case Some(v) => Some(v))
    case Let(bound, body) =>
      (match TreeValue(env, bound, vals)
       case None => None
       case Some(x) => TreeValue(env, body, vals + [x]))
    case LetBoth(first, second, body) =>
      (match TreeValue(env, first, vals)
       case None => None
       case Some(x) =>
         match TreeValue(env, second, vals + [x])
         case None => None
         case Some(y) => TreeValue(env, body, vals + [x, y]))
    case Padded(arg) => TreeValue(env, arg, vals)
  }

  /**
   The tree can be compiled when d values lie above the base of its frame and variable i is the
   one at vars[i]: every variable is bound and within reach of a pick, and registers have values only in
   call frame information.
   */
  predicate Compilable(inFrameInfo: bool, t: Tree, vars: seq<nat>, d: nat) {
    match t
    case Var(i) => i < |vars| && vars[i] < d && d - 1 - vars[i] < 256
    case RegValue(_) => inFrameInfo
    case Binary(_, l, r) => Compilable(inFrameInfo, l, vars, d) && Compilable(inFrameInfo, r, vars, d + 1)
    case Related(_, l, r) => Compilable(inFrameInfo, l, vars, d) && Compilable(inFrameInfo, r, vars, d + 1)
    case Monadic(_, arg) => Compilable(inFrameInfo, arg, vars, d)
    case Added(arg, _) => Compilable(inFrameInfo, arg, vars, d)
    case Load(_, arg) => Compilable(inFrameInfo, arg, vars, d)
    case Padded(arg) => Compilable(inFrameInfo, arg, vars, d)
    case Let(bound, body) => Compilable(inFrameInfo, bound, vars, d) && Compilable(inFrameInfo, body, vars + [d], d + 1)
    case LetBoth(first, second, body) =>
      && Compilable(inFrameInfo, first, vars, d) && Compilable(inFrameInfo, second, vars + [d], d + 1)
      && Compilable(inFrameInfo, body, vars + [d, d + 1], d + 2)
    case _ => true
  }

  /** Postfix code. A bound value stays below the result until that is swapped or rotated under it. */
  function Compile(inFrameInfo: bool, t: Tree, vars: seq<nat>, d: nat): seq<Op>
    requires Compilable(inFrameInfo, t, vars, d)
  {
    match t
    case Num(v) => [Const(Wrap64(v))]
    case Reg(reg, off) => [RegPlus(reg, off)]
    case RegValue(reg) => [InReg(reg)]
    case Local(off) => [FrameBase(off)]
    case Static(a) => [Addr(a)]
    case Cfa => [CallFrameCfa]
    case Var(i) => [Pick(d - 1 - vars[i])]
    case Binary(a, l, r) => Compile(inFrameInfo, l, vars, d) + Compile(inFrameInfo, r, vars, d + 1) + [Calc(a)]
    case Monadic(u, arg) => Compile(inFrameInfo, arg, vars, d) + [Apply1(u)]
    case Related(rel, l, r) => Compile(inFrameInfo, l, vars, d) + Compile(inFrameInfo, r, vars, d + 1) + [Compare(rel)]
    case Added(arg, c) => Compile(inFrameInfo, arg, vars, d) + [PlusConst(c)]
    case Load(size, arg) => Compile(inFrameInfo, arg, vars, d) + [Deref(size)]
    case Let(bound, body) =>
      Compile(inFrameInfo, bound, vars, d) + Compile(inFrameInfo, body, vars + [d], d + 1) + [Swap, Drop]
    case LetBoth(first, second, body) =>
      Compile(inFrameInfo, first, vars, d) + Compile(inFrameInfo, second, vars + [d], d + 1) +
      Compile(inFrameInfo, body, vars + [d, d + 1], d + 2) + [Rot, Drop, Drop]
    case Padded(arg) => [NoOp] + Compile(inFrameInfo, arg, vars, d)
  }

  // ---------------------------------------------------------------- modular arithmetic

  lemma WrapPlus(x: int, y: int)
    ensures Wrap64(Wrap64(x) + Wrap64(y)) == Wrap64(x + y)
    ensures Wrap64(Wrap64(x) - Wrap64(y)) == Wrap64(x - y)
  {
    var qx, qy := x / TWO64, y / TWO64;
    assert x == Wrap64(x) + qx * TWO64 && y == Wrap64(y) + qy * TWO64;
    WrapShift(Wrap64(x) + Wrap64(y), qx + qy);
    WrapShift(Wrap64(x) - Wrap64(y), qx - qy);
  }

  lemma WrapShift(x: int, k: int)
    ensures Wrap64(x + k * TWO64) == Wrap64(x)
  {
    var q := x / TWO64;
    assert x + k * TWO64 == (q + k) * TWO64 + Wrap64(x);
    Quotient(x + k * TWO64, q + k, Wrap64(x));
  }

  lemma Quotient(x: int, q: int, r: int)
    requires x == q * TWO64 + r && 0 <= r < TWO64
    ensures x % TWO64 == r
  {
  }

  lemma WrapMul(x: int, y: int)
    ensures Wrap64(Wrap64(x) * y) == Wrap64(x * y)
  {
    var q := x / TWO64;
    MulSplit(Wrap64(x), q, y);
    WrapShift(Wrap64(x) * y, q * y);
  }

  lemma MulSplit(r: int, q: int, y: int)
    ensures (q * TWO64 + r) * y == r * y + (q * y) * TWO64
  {
    assert (q * TWO64 + r) * y == q * TWO64 * y + r * y;
    assert q * TWO64 * y == (q * y) * TWO64;
  }

  lemma WrapMultiple(x: int, p: int)
    requires p % TWO64 == 0
    ensures Wrap64(x * p) == 0
  {
    var k := p / TWO64;
    assert p == k * TWO64;
    assert x * p == (x * k) * TWO64;
    WrapShift(0, x * k);
  }

  /** Left shifts by 64 or more leave nothing. */
  lemma ShlValue(x: int, y: U64)
    ensures Wrap64(x * Pow2(y)) == if y < 64 then Wrap64(Wrap64(x) * Pow2(y)) else 0
  {
    if y < 64 {
      WrapMul(x, Pow2(y));
    } else {
      Pow2Multiple(y);
      WrapMultiple(x, Pow2(y));
    }
  }

  /** Right shifts by 64 or more leave nothing but the sign. */
  lemma ShrValue(x: int, y: U64)
    requires -TWO64 <= x < TWO64 && y >= 64
    ensures x / Pow2(y) == if x < 0 then -1 else 0
  {
    Pow2Values();
    Pow2Monotone(64, y);
    SmallQuotient(x, Pow2(y));
  }

  lemma SmallQuotient(x: int, p: int)
    requires -p <= x < p && p > 0
    ensures x / p == if x < 0 then -1 else 0
  {
    if x < 0 {
      assert x == -1 * p + (x + p);
    }
  }

  /** Operating on representations gives the representation of the value. */
  predicate Commutes(a: Arith, x: int, y: int) {
    Calculate(a, Wrap64(x), Wrap64(y)) == match ArithValue(a, x, y) case None => None case Some(v) => Some(Wrap64(v))
  }

  lemma RingCommutes(a: Arith, x: int, y: int)
    requires a.Plus? || a.Minus? || a.Mul?
    ensures Commutes(a, x, y)
  {
    WrapPlus(x, y);
    if a.Mul? {
      WrapMul(y, Wrap64(x));
      WrapMul(x, y);
    }
  }

  lemma ShiftCommutes(a: Arith, x: int, y: int)
    requires a.Shl? || a.Shr? || a.Shra?
    ensures Commutes(a, x, y)
  {
    if a.Shl? {
      ShlValue(x, Wrap64(y));
    } else if Wrap64(y) >= 64 {
      ShrValue(Wrap64(x), Wrap64(y));
      ShrValue(Sig(x), Wrap64(y));
    }
  }

  /** Every operator commutes with reduction to 64 bits. */
  lemma ArithCommutes(a: Arith, x: int, y: int)
    ensures Commutes(a, x, y)
  {
    if a.Plus? || a.Minus? || a.Mul? {
      RingCommutes(a, x, y);
    } else if a.Shl? || a.Shr? || a.Shra? {
      ShiftCommutes(a, x, y);
    } else if a.Mod? {
      ModSmall(Wrap64(x), Wrap64(y));
    }
  }

  lemma ModSmall(x: U64, y: U64)
    ensures y != 0 ==> x % y == Wrap64(x % y)
  {
  }

  lemma UnaryCommutes(u: Unary, x: int)
    ensures Unarily(u, Wrap64(x)) == Wrap64(UnaryValue(u, x))
  {
    match u
    case Abs =>
    case Neg =>
      WrapPlus(0, x);
      WrapShift(0 - Wrap64(x), 1);
    case Not => WrapPlus(-1, x);
  }

  // ---------------------------------------------------------------- correctness of the code

  /** What executing the code of a tree with this value leaves. */
  function Pushed(m: Machine, v: Option<int>): Option<Machine> {
    match v case None => None case Some(x) => Some(Push(m, Wrap64(x)))
  }

  lemma OneOp(env: Env, op: Op, m: Machine)
    ensures Exec(env, [op], m) == Effect(env, op, m)
  {
    assert [op][1..] == [];
    var apply := Applier(env);
    assert apply(op, m) == Effect(env, op, m);
    if Effect(env, op, m).Some? {
      assert Fold(apply, [], Effect(env, op, m).value) == Effect(env, op, m);
    }
  }

  lemma BinaryOp(env: Env, op: Op, m: Machine, x: int, y: int)
    requires op.Calc? || op.Compare?
    ensures Effect(env, op, Push(Push(m, Wrap64(x)), Wrap64(y))) ==
            Pushed(m, if op.Calc? then ArithValue(op.arith, x, y) else Some(Truth(Holds(op.relation, Sig(x), Sig(y)))))
  {
    var both := Push(Push(m, Wrap64(x)), Wrap64(y));
    assert both.stack[..|both.stack| - 2] == m.stack;
    assert Top(both, 1) == Wrap64(x) && Top(both, 0) == Wrap64(y);
    if op.Calc? {
      ArithCommutes(op.arith, x, y);
    }
  }

  lemma TopOp(env: Env, op: Op, m: Machine, x: int)
    requires op.Apply1? || op.PlusConst? || op.Deref?
    ensures Effect(env, op, Push(m, Wrap64(x))) == Pushed(m, TopValue(env, op, x))
  {
    var one := Push(m, Wrap64(x));
    assert one.stack[..|one.stack| - 1] == m.stack && Top(one, 0) == Wrap64(x);
    match op
    case Apply1(u) => UnaryCommutes(u, x);
    case PlusConst(c) => WrapPlus(x, c);
    case _ =>
  }

  /** What an operation makes of the top of the stack, on the integers. */
  function TopValue(env: Env, op: Op, x: int): Option<int>
    requires op.Apply1? || op.PlusConst? || op.Deref?
  {
    match op
    case Apply1(u) => Some(UnaryValue(u, x))
    case PlusConst(c) => Some(x + c)
    case Deref(size) => (match env.memory(Wrap64(x), size) case None => None case Some(v) => Some(v))
  }

  /** Code that pushes a value or fails, and what follows it. */
  lemma ExecThen(env: Env, p: seq<Op>, q: seq<Op>, m: Machine, x: Option<int>)
    requires Exec(env, p, m) == Pushed(m, x)
    ensures Exec(env, p + q, m) == if x.None? then None else Exec(env, q, Push(m, Wrap64(x.value)))
  {
    FoldAppend(Applier(env), p, q, m);
  }

  /** Two operands and an operator. */
  lemma ExecBinary(env: Env, p: seq<Op>, q: seq<Op>, op: Op, m: Machine, x: Option<int>, y: Option<int>)
    requires op.Calc? || op.Compare?
    requires Exec(env, p, m) == Pushed(m, x)
    requires x.Some? ==> Exec(env, q, Push(m, Wrap64(x.value))) == Pushed(Push(m, Wrap64(x.value)), y)
    ensures Exec(env, p + q + [op], m) ==
            if x.None? || y.None? then None
            else Pushed(m, if op.Calc? then ArithValue(op.arith, x.value, y.value) else Some(Truth(Holds(op.relation, Sig(x.value), Sig(y.value)))))
  {
    assert p + q + [op] == p + (q + [op]);
    ExecThen(env, p, q + [op], m, x);
    if x.Some? {
      ExecThen(env, q, [op], Push(m, Wrap64(x.value)), y);
      if y.Some? {
        BinaryOp(env, op, m, x.value, y.value);
        OneOp(env, op, Push(Push(m, Wrap64(x.value)), Wrap64(y.value)));
      }
    }
  }

  /** One operand and an operator. */
  lemma ExecTop(env: Env, p: seq<Op>, op: Op, m: Machine, x: Option<int>)
    requires op.Apply1? || op.PlusConst? || op.Deref?
    requires Exec(env, p, m) == Pushed(m, x)
    ensures Exec(env, p + [op], m) == Pushed(m, if x.None? then None else TopValue(env, op, x.value))
  {
    ExecThen(env, p, [op], m, x);
    if x.Some? {
      TopOp(env, op, m, x.value);
      OneOp(env, op, Push(m, Wrap64(x.value)));
    }
  }

  lemma TwoOps(env: Env, a: Op, b: Op, m: Machine)
    ensures Exec(env, [a, b], m) == match Effect(env, a, m) case None => None case Some(m') => Effect(env, b, m')
  {
    assert [a, b] == [a] + [b];
    FoldAppend(Applier(env), [a], [b], m);
    OneOp(env, a, m);
    if Effect(env, a, m).Some? {
      OneOp(env, b, Effect(env, a, m).value);
    }
  }

  /** Swap and drop leave the result in the place of the bound value. */
  lemma Unbind(env: Env, m: Machine, x: U64, v: U64)
    ensures Exec(env, [Swap, Drop], Push(Push(m, x), v)) == Some(Push(m, v))
  {
    var both := Push(Push(m, x), v);
    TwoOps(env, Swap, Drop, both);
    assert both.stack[..|both.stack| - 2] == m.stack;
    var swapped := both.(stack := m.stack + [v, x]);
    assert Effect(env, Swap, both) == Some(swapped);
    assert swapped.stack[..|swapped.stack| - 1] == m.stack + [v];
  }

  /** Rot and two drops leave the result in the place of both bound values. */
  lemma UnbindBoth(env: Env, m: Machine, x: U64, y: U64, v: U64)
    ensures Exec(env, [Rot, Drop, Drop], Push(Push(Push(m, x), y), v)) == Some(Push(m, v))
  {
    var all := Push(Push(Push(m, x), y), v);
    assert [Rot, Drop, Drop] == [Rot] + [Drop, Drop];
    FoldAppend(Applier(env), [Rot], [Drop, Drop], all);
    OneOp(env, Rot, all);
    assert all.stack[..|all.stack| - 3] == m.stack;
    var rotated := all.(stack := m.stack + [v, x, y]);
    assert Effect(env, Rot, all) == Some(rotated);
    TwoOps(env, Drop, Drop, rotated);
    assert rotated.stack[..|rotated.stack| - 1] == m.stack + [v, x];
    assert (m.stack + [v, x])[..|m.stack| + 1] == m.stack + [v];
  }

  /** The stack holds the variables where the code expects them. */
  predicate Frame(m: Machine, vars: seq<nat>, d: nat, vals: seq<int>) {
    && |vars| == |vals| && d <= |m.stack|
    && forall i :: 0 <= i < |vars| ==> vars[i] < d && m.stack[|m.stack| - d + vars[i]] == Wrap64(vals[i])
  }

  /** A value pushed on top is one more, and may be a variable. */
  lemma FramePush(m: Machine, vars: seq<nat>, d: nat, vals: seq<int>, x: int)
    requires Frame(m, vars, d, vals)
    ensures Frame(Push(m, Wrap64(x)), vars, d + 1, vals)
    ensures Frame(Push(m, Wrap64(x)), vars + [d], d + 1, vals + [x])
  {
  }

  lemma LeafOp(env: Env, t: Tree, vars: seq<nat>, d: nat, m: Machine, vals: seq<int>)
    requires t.Num? || t.Reg? || t.RegValue? || t.Local? || t.Static? || t.Cfa? || t.Var?
    requires Compilable(env.inFrameInfo, t, vars, d) && Frame(m, vars, d, vals)
    ensures Exec(env, Compile(env.inFrameInfo, t, vars, d), m) == Pushed(m, TreeValue(env, t, vals))
  {
    var ops := Compile(env.inFrameInfo, t, vars, d);
    OneOp(env, ops[0], m);
    assert ops == [ops[0]];
    assert t.Cfa? ==> Wrap64(env.cfa) == env.cfa;
    if t.Var? {
      assert Top(m, d - 1 - vars[t.index]) == m.stack[|m.stack| - d + vars[t.index]];
    }
  }

  /** A bound value, the body, and what removes the value again. */
  lemma ExecLet(env: Env, p: seq<Op>, q: seq<Op>, m: Machine, x: Option<int>, y: Option<int>)
    requires Exec(env, p, m) == Pushed(m, x)
    requires x.Some? ==> Exec(env, q, Push(m, Wrap64(x.value))) == Pushed(Push(m, Wrap64(x.value)), y)
    ensures Exec(env, p + q + [Swap, Drop], m) == Pushed(m, if x.None? then None else y)
  {
    assert p + q + [Swap, Drop] == p + (q + [Swap, Drop]);
    ExecThen(env, p, q + [Swap, Drop], m, x);
    if x.Some? {
      ExecThen(env, q, [Swap, Drop], Push(m, Wrap64(x.value)), y);
      if y.Some? {
        Unbind(env, m, Wrap64(x.value), Wrap64(y.value));
      }
    }
  }

  lemma ExecLetBoth(env: Env, p: seq<Op>, q: seq<Op>, r: seq<Op>, m: Machine, x: Option<int>, y: Option<int>, z: Option<int>)
    requires Exec(env, p, m) == Pushed(m, x)
    requires x.Some? ==> Exec(env, q, Push(m, Wrap64(x.value))) == Pushed(Push(m, Wrap64(x.value)), y)
    requires x.Some? && y.Some? ==>
      var both := Push(Push(m, Wrap64(x.value)), Wrap64(y.value));
      Exec(env, r, both) == Pushed(both, z)
    ensures Exec(env, p + q + r + [Rot, Drop, Drop], m) == Pushed(m, if x.None? || y.None? then None else z)
  {
    var last := [Rot, Drop, Drop];
    assert p + q + r + last == p + (q + (r + last));
    ExecThen(env, p, q + (r + last), m, x);
    if x.Some? {
      ExecThen(env, q, r + last, Push(m, Wrap64(x.value)), y);
      if y.Some? {
        ExecThen(env, r, last, Push(Push(m, Wrap64(x.value)), Wrap64(y.value)), z);
        if z.Some? {
          UnbindBoth(env, m, Wrap64(x.value), Wrap64(y.value), Wrap64(z.value));
        }
      }
    }
  }

  /** Code that does nothing, in front. */
  lemma ExecPadded(env: Env, p: seq<Op>, m: Machine)
    ensures Exec(env, [NoOp] + p, m) == Exec(env, p, m)
  {
    FoldAppend(Applier(env), [NoOp], p, m);
    OneOp(env, NoOp, m);
  }

  /**
   The postfix code of any tree pushes exactly the tree's value modulo 2^64 and
   leaves the rest of the stack alone; it fails exactly when the tree has no value.
   */
  lemma {:induction false} CompileCorrect(env: Env, t: Tree, vars: seq<nat>, d: nat, m: Machine, vals: seq<int>)
    requires Compilable(env.inFrameInfo, t, vars, d) && Frame(m, vars, d, vals)
    ensures Exec(env, Compile(env.inFrameInfo, t, vars, d), m) == Pushed(m, TreeValue(env, t, vals))
    decreases t, 1
  {
    var info := env.inFrameInfo;
    match t
    case Binary(a, l, r) =>
      OperandsCorrect(env, t, l, r, vars, d, m, vals);
      ExecBinary(env, Compile(info, l, vars, d), Compile(info, r, vars, d + 1), Calc(a), m, TreeValue(env, l, vals), TreeValue(env, r, vals));
    case Related(rel, l, r) =>
      OperandsCorrect(env, t, l, r, vars, d, m, vals);
      ExecBinary(env, Compile(info, l, vars, d), Compile(info, r, vars, d + 1), Compare(rel), m, TreeValue(env, l, vals), TreeValue(env, r, vals));
    case Monadic(u, arg) =>
      CompileCorrect(env, arg, vars, d, m, vals);
      ExecTop(env, Compile(info, arg, vars, d), Apply1(u), m, TreeValue(env, arg, vals));
    case Added(arg, c) =>
      CompileCorrect(env, arg, vars, d, m, vals);
      ExecTop(env, Compile(info, arg, vars, d), PlusConst(c), m, TreeValue(env, arg, vals));
    case Load(size, arg) =>
      CompileCorrect(env, arg, vars, d, m, vals);
      ExecTop(env, Compile(info, arg, vars, d), Deref(size), m, TreeValue(env, arg, vals));
    case Padded(arg) =>
      CompileCorrect(env, arg, vars, d, m, vals);
      ExecPadded(env, Compile(info, arg, vars, d), m);
    case Let(_, _) => LetCorrect(env, t, vars, d, m, vals);
    case LetBoth(_, _, _) => LetBothCorrect(env, t, vars, d, m, vals);
    case _ => LeafOp(env, t, vars, d, m, vals);
  }

  lemma {:induction false} OperandsCorrect(env: Env, t: Tree, l: Tree, r: Tree, vars: seq<nat>, d: nat, m: Machine, vals: seq<int>)
    requires (t.Binary? || t.Related?) && l == t.left && r == t.right
    requires Compilable(env.inFrameInfo, l, vars, d) && Compilable(env.inFrameInfo, r, vars, d + 1) && Frame(m, vars, d, vals)
    ensures Exec(env, Compile(env.inFrameInfo, l, vars, d), m) == Pushed(m, TreeValue(env, l, vals))
    ensures TreeValue(env, l, vals).Some? ==>
      var m' := Push(m, Wrap64(TreeValue(env, l, vals).value));
      Exec(env, Compile(env.inFrameInfo, r, vars, d + 1), m') == Pushed(m', TreeValue(env, r, vals))
    decreases t, 0
  {
    CompileCorrect(env, l, vars, d, m, vals);
    var x := TreeValue(env, l, vals);
    if x.Some? {
      FramePush(m, vars, d, vals, x.value);
      CompileCorrect(env, r, vars, d + 1, Push(m, Wrap64(x.value)), vals);
    }
  }

  lemma {:induction false} LetCorrect(env: Env, t: Tree, vars: seq<nat>, d: nat, m: Machine, vals: seq<int>)
    requires t.Let? && Compilable(env.inFrameInfo, t, vars, d) && Frame(m, vars, d, vals)
    ensures Exec(env, Compile(env.inFrameInfo, t, vars, d), m) == Pushed(m, TreeValue(env, t, vals))
    decreases t, 0
  {
    var info, x := env.inFrameInfo, TreeValue(env, t.bound, vals);
    CompileCorrect(env, t.bound, vars, d, m, vals);
    if x.Some? {
      FramePush(m, vars, d, vals, x.value);
      CompileCorrect(env, t.body, vars + [d], d + 1, Push(m, Wrap64(x.value)), vals + [x.value]);
      ExecLet(env, Compile(info, t.bound, vars, d), Compile(info, t.body, vars + [d], d + 1), m, x, TreeValue(env, t.body, vals + [x.value]));
    } else {
      ExecLet(env, Compile(info, t.bound, vars, d), Compile(info, t.body, vars + [d], d + 1), m, x, None);
    }
  }

  lemma {:induction false} LetBothCorrect(env: Env, t: Tree, vars: seq<nat>, d: nat, m: Machine, vals: seq<int>)
    requires t.LetBoth? && Compilable(env.inFrameInfo, t, vars, d) && Frame(m, vars, d, vals)
    ensures Exec(env, Compile(env.inFrameInfo, t, vars, d), m) == Pushed(m, TreeValue(env, t, vals))
    decreases t, 0
  {
    hide Exec, Frame;
    var info, x := env.inFrameInfo, TreeValue(env, t.first, vals);
    var p, q := Compile(info, t.first, vars, d), Compile(info, t.second, vars + [d], d + 1);
    var r := Compile(info, t.body, vars + [d, d + 1], d + 2);
    CompileCorrect(env, t.first, vars, d, m, vals);
    if x.None? {
      ExecLetBoth(env, p, q, r, m, x, None, None);
      return;
    }
    FramePush(m, vars, d, vals, x.value);
    var m1 := Push(m, Wrap64(x.value));
    var y := TreeValue(env, t.second, vals + [x.value]);
    CompileCorrect(env, t.second, vars + [d], d + 1, m1, vals + [x.value]);
    if y.None? {
      ExecLetBoth(env, p, q, r, m, x, y, None);
      return;
    }
    FramePush(m1, vars + [d], d + 1, vals + [x.value], y.value);
    assert vars + [d] + [d + 1] == vars + [d, d + 1] && vals + [x.value] + [y.value] == vals + [x.value, y.value];
    CompileCorrect(env, t.body, vars + [d, d + 1], d + 2, Push(m1, Wrap64(y.value)), vals + [x.value, y.value]);
    ExecLetBoth(env, p, q, r, m, x, y, TreeValue(env, t.body, vals + [x.value, y.value]));
  }

  lemma {:induction false} CompileStraight(info: bool, t: Tree, vars: seq<nat>, d: nat)
    requires Compilable(info, t, vars, d)
    ensures Straight(Compile(info, t, vars, d))
  {
    match t
    case Binary(_, l, r) =>
      CompileStraight(info, l, vars, d);
      CompileStraight(info, r, vars, d + 1);
    case Related(_, l, r) =>
      CompileStraight(info, l, vars, d);
      CompileStraight(info, r, vars, d + 1);
    case Monadic(_, arg) => CompileStraight(info, arg, vars, d);
    case Added(arg, _) => CompileStraight(info, arg, vars, d);
    case Load(_, arg) => CompileStraight(info, arg, vars, d);
    case Padded(arg) => CompileStraight(info, arg, vars, d);
    case Let(bound, body) =>
      CompileStraight(info, bound, vars, d);
      CompileStraight(info, body, vars + [d], d + 1);
    case LetBoth(first, second, body) =>
      CompileStraight(info, first, vars, d);
      CompileStraight(info, second, vars + [d], d + 1);
      CompileStraight(info, body, vars + [d, d + 1], d + 2);
    case _ =>
  }

  lemma RunAs(env: Env, prefix: seq<Byte>, ops: seq<Op>, rest: seq<Byte>, data: seq<Byte>, m: Machine, after: Option<Machine>, fuel: nat)
    requires Straight(ops) && data == prefix + EncodeOps(ops) + rest && Exec(env, ops, m) == after
    ensures RunFor(env, data, |prefix|, m, fuel + |ops|) ==
            Continue(Stepper(env, data), |data|, |prefix + EncodeOps(ops)|, after, fuel)
  {
    RunStraight(env, prefix, ops, rest, data, m, fuel);
  }

  /** The code of a tree without free variables. */
  function Code(info: bool, t: Tree): seq<Op>
    requires Compilable(info, t, [], 0)
  {
    Compile(info, t, [], 0)
  }

  /**
   The same for the bytes of the code, wherever they stand in an expression: the run goes
   on behind them with the value pushed, or fails if there is none.
   */
  lemma EvaluateTree(env: Env, prefix: seq<Byte>, t: Tree, ops: seq<Op>, rest: seq<Byte>, data: seq<Byte>, m: Machine, fuel: nat)
    requires Compilable(env.inFrameInfo, t, [], 0) && ops == Code(env.inFrameInfo, t) && data == prefix + EncodeOps(ops) + rest
    ensures RunFor(env, data, |prefix|, m, fuel + |ops|) ==
            Continue(Stepper(env, data), |data|, |prefix + EncodeOps(ops)|, Pushed(m, TreeValue(env, t, [])), fuel)
  {
    var after := Pushed(m, TreeValue(env, t, []));
    CompileStraight(env.inFrameInfo, t, [], 0);
    CompileCorrect(env, t, [], 0, m, []);
    RunAs(env, prefix, ops, rest, data, m, after, fuel);
  }
}
