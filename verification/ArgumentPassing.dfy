/**
 setupArguments: placing the arguments of an inferior call in registers and on
 the stack, against a left-to-right allocator.
 */
module ArgumentPassing {
  import opened Bytes
  import opened Memory
  import opened Tracee
  import opened Classification

  const INT_REGS := 6
  const SSE_REGS := 8

  /** An argument once its classes are known. `size` is the size of its type, or that of its data without one. */
  datatype Arg = Arg(classes: Classes, size: nat, data: seq<Byte>)

  /**
   The argument for a value: a literal's class comes from its kind, any other from the
   parameter's type, INTEGER without one; the size from the type if it has one.
   */
  function ArgOf(typ: Option<Type>, literal: Option<Class>, data: seq<Byte>): (a: Arg)
    ensures a.size > 0 && a.data == data
    ensures literal.None? && typ.Some? ==> a.classes == Classify(typ.value)
  {
    var classes :=
      if literal.Some? then Classes(literal.value, NoClass)
      else if typ.Some? then Classify(typ.value)
      else Classes(Integer, NoClass);
    var size := if typ.Some? && Size(typ.value) > 0 then Size(typ.value) else if |data| > 0 then |data| else 8;
    Arg(classes, size, data)
  }

  /** The registers handed out so far. */
  datatype Cursor = Cursor(ints: nat, sses: nat)

  function ClassAt(a: Arg, j: nat): Class
    requires j < 2
  {
    if j == 0 then a.classes.lo else a.classes.hi
  }

  /** How many of the two eightbytes want a register of this class. */
  function Wanted(a: Arg, c: Class): nat {
    (if a.classes.lo == c then 1 else 0) + (if a.classes.hi == c then 1 else 0)
  }

  /** The argument goes to the stack. */
  predicate OnStack(a: Arg, at: Cursor) {
    || at.ints + Wanted(a, Integer) > INT_REGS
    || at.sses + Wanted(a, SSE) > SSE_REGS
    || (Wanted(a, Integer) == 0 && Wanted(a, SSE) == 0)
    || a.classes.lo == Memory
    || a.classes.lo == X87
  }

  /** A long double, or a struct or array of more than two eightbytes. */
  predicate Oversized(t: Type) {
    match t
    case LongDouble => true
    case Qualified(inner) => Oversized(inner)
    case Struct(size, _) => size > 16
    case Array(size, _) => size > 16
    case _ => false
  }

  /** Such an argument goes to the stack however many registers are left. */
  lemma {:induction false} OversizedOnStack(t: Type, data: seq<Byte>, at: Cursor)
    requires Oversized(t)
    ensures OnStack(ArgOf(Some(t), None, data), at)
  {
    OversizedClass(t);
  }

  lemma {:induction false} OversizedClass(t: Type)
    requires Oversized(t)
    ensures Classify(t).lo == Memory || Classify(t).lo == X87
  {
    if t.Qualified? {
      OversizedClass(t.inner);
    }
  }

  /** Eightbyte j of the argument takes a register of class c. */
  predicate Takes(a: Arg, j: nat, c: Class) {
    j < 2 && j * 8 < a.size && ClassAt(a, j) == c
  }

  function Taken(a: Arg, c: Class): nat {
    (if Takes(a, 0, c) then 1 else 0) + (if Takes(a, 1, c) then 1 else 0)
  }

  /** The registers handed out after one more argument. */
  function Advance(a: Arg, at: Cursor): Cursor {
    if OnStack(a, at) then at else Cursor(at.ints + Taken(a, Integer), at.sses + Taken(a, SSE))
  }

  /** The registers handed out before argument n, from left to right. */
  function Before(args: seq<Arg>, n: nat, start: Cursor): Cursor
    requires n <= |args|
  {
    if n == 0 then start else Advance(args[n - 1], Before(args, n - 1, start))
  }

  /** The register of class c that eightbyte j of argument i gets. */
  function Slot(args: seq<Arg>, i: nat, j: nat, c: Class, start: Cursor): nat
    requires i < |args| && j < 2
  {
    var at := Before(args, i, start);
    (if c == Integer then at.ints else at.sses) + (if j == 1 && Takes(args[i], 0, c) then 1 else 0)
  }

  /** Eightbyte j of argument i is passed in a register of class c. */
  predicate InRegister(args: seq<Arg>, i: nat, j: nat, c: Class, start: Cursor) {
    i < |args| && !OnStack(args[i], Before(args, i, start)) && Takes(args[i], j, c)
  }

  /**
   An argument of a regular type is not split: unless it goes to the stack, each of its
   eightbytes that holds a scalar is passed in a register of the psABI's class for it.
   */
  lemma NotSplit(args: seq<Arg>, i: nat, j: nat, t: Type, data: seq<Byte>, start: Cursor)
    requires i < |args| && args[i] == ArgOf(Some(t), None, data) && Regular(t)
    requires j < 2 && !OnStack(args[i], Before(args, i, start)) && Maximum(t, j) != NoClass
    ensures InRegister(args, i, j, Maximum(t, j), start)
  {
    ClassifyIsMaximum(t);
    RegularSize(t);
    if j == 1 {
      LeafInside(t, 0, 1, Maximum(t, 1));
    }
  }

  predicate Within(at: Cursor) {
    at.ints <= INT_REGS && at.sses <= SSE_REGS
  }

  lemma {:induction false} BeforeGrows(args: seq<Arg>, m: nat, n: nat, start: Cursor)
    requires m <= n <= |args| && Within(start)
    ensures Within(Before(args, n, start))
    ensures Before(args, m, start).ints <= Before(args, n, start).ints && Before(args, m, start).sses <= Before(args, n, start).sses
    decreases n
  {
    if n > 0 {
      BeforeGrows(args, if m < n then m else n - 1, n - 1, start);
    }
  }

  /** An integer, a pointer or a floating-point number of at most eight bytes. */
  predicate Scalar(a: Arg) {
    (a.classes == Classes(Integer, NoClass) || a.classes == Classes(SSE, NoClass)) && a.size > 0
  }

  function Limit(c: Class): nat {
    if c == Integer then INT_REGS else SSE_REGS
  }

  /** How many of the first n arguments are scalars of class c. */
  function Earlier(args: seq<Arg>, n: nat, c: Class): nat
    requires n <= |args|
  {
    if n == 0 then 0 else Earlier(args, n - 1, c) + if Scalar(args[n - 1]) && args[n - 1].classes.lo == c then 1 else 0
  }

  /**
   Scalars, among arguments that always go to the stack, take the registers of their class
   in the order in which they stand: the sixth integer and the eighth floating-point number
   still get one, and those after them are on the stack.
   */
  lemma {:induction false} ScalarsInOrder(args: seq<Arg>, n: nat, c: Class, start: Cursor)
    requires n <= |args| && Within(start) && (c == Integer || c == SSE)
    requires forall k :: 0 <= k < |args| ==> Scalar(args[k]) || args[k].classes.lo == Memory || args[k].classes.lo == X87
    ensures
      var given := (if c == Integer then start.ints else start.sses) + Earlier(args, n, c);
      (if c == Integer then Before(args, n, start).ints else Before(args, n, start).sses) ==
        if given < Limit(c) then given else Limit(c)
    ensures
      var given := (if c == Integer then start.ints else start.sses) + Earlier(args, n, c);
      n < |args| && Scalar(args[n]) && args[n].classes.lo == c ==>
        && (OnStack(args[n], Before(args, n, start)) <==> given >= Limit(c))
        && (given < Limit(c) ==> InRegister(args, n, 0, c, start) && Slot(args, n, 0, c, start) == given)
  {
    BeforeGrows(args, n, n, start);
    if n > 0 {
      ScalarsInOrder(args, n - 1, c, start);
      BeforeGrows(args, n - 1, n - 1, start);
    }
  }

  /** No more than six and eight registers are used, and never one of them twice. */
  lemma SlotsDistinct(args: seq<Arg>, i: nat, j: nat, i': nat, j': nat, c: Class, start: Cursor)
    requires Within(start) && (c == Integer || c == SSE)
    requires InRegister(args, i, j, c, start) && InRegister(args, i', j', c, start) && (i, j) != (i', j')
    ensures Slot(args, i, j, c, start) != Slot(args, i', j', c, start)
    ensures Slot(args, i, j, c, start) < if c == Integer then INT_REGS else SSE_REGS
  {
    BeforeGrows(args, i, i, start);
    BeforeGrows(args, i', i', start);
    if i < i' {
      BeforeGrows(args, i + 1, i', start);
    } else if i' < i {
      BeforeGrows(args, i' + 1, i, start);
    }
  }

  // ---------------------------------------------------------------- the stack

  function RoundUp8(n: nat): nat {
    (n + 7) / 8 * 8
  }

  /** The bytes of a stack argument, padded with zeros to whole eightbytes. */
  function Block(a: Arg): (b: seq<Byte>)
    ensures |b| == RoundUp8(a.size)
  {
    seq(RoundUp8(a.size), k requires 0 <= k < RoundUp8(a.size) => if k < |a.data| then a.data[k] else 0)
  }

  /** The stack arguments among the first n, in order. */
  function StackBlocks(args: seq<Arg>, n: nat, start: Cursor): seq<seq<Byte>>
    requires n <= |args|
  {
    if n == 0 then []
    else
      var rest := StackBlocks(args, n - 1, start);
      if OnStack(args[n - 1], Before(args, n - 1, start)) then rest + [Block(args[n - 1])] else rest
  }

  /** rsp - total, aligned down to 16. */
  function StackBase(rsp: U64, total: nat): U64 {
    Wrap64(rsp - total) - Wrap64(rsp - total) % 16
  }

  /** The stack area is aligned, and ends at or below the old stack pointer. */
  lemma StackFits(rsp: U64, total: nat)
    requires total <= rsp
    ensures StackBase(rsp, total) % 16 == 0 && rsp - total - 16 < StackBase(rsp, total) && StackBase(rsp, total) + total <= rsp
  {
  }

  /** Eightbyte j of the data, short data padded with zeros. */
  function Word(a: Arg, j: nat): (w: seq<Byte>)
    ensures |w| == 8
  {
    seq(8, k requires 0 <= k < 8 => if 8 * j + k < |a.data| then a.data[8 * j + k] else 0)
  }

  /** What a register of class c gets: the word, and zeros in the upper half of an xmm register. */
  function RegValue(a: Arg, j: nat, c: Class): seq<Byte> {
    if c == SSE then Word(a, j) + [0, 0, 0, 0, 0, 0, 0, 0] else Word(a, j)
  }

  // ---------------------------------------------------------------- the registers

  type Bank = seq<seq<Byte>>

  /** Eightbyte j into register `at`, if it takes one of class c. */
  function PutWord(regs: Bank, a: Arg, j: nat, c: Class, at: nat): (r: Bank)
    ensures |r| == |regs|
  {
    if Takes(a, j, c) && at < |regs| then regs[at := RegValue(a, j, c)] else regs
  }

  /** Both eightbytes, in neighbouring registers from `at`. */
  function PutArg(regs: Bank, a: Arg, c: Class, at: nat): (r: Bank)
    ensures |r| == |regs|
  {
    PutWord(PutWord(regs, a, 0, c, at), a, 1, c, if Takes(a, 0, c) then at + 1 else at)
  }

  function Used(at: Cursor, c: Class): nat {
    if c == Integer then at.ints else at.sses
  }

  /** The registers of class c after the first n arguments. */
  function BankAfter(regs: Bank, args: seq<Arg>, n: nat, c: Class, start: Cursor): (r: Bank)
    requires n <= |args|
    ensures |r| == |regs|
  {
    if n == 0 then regs
    else
      var prev := BankAfter(regs, args, n - 1, c, start);
      var at := Before(args, n - 1, start);
      if OnStack(args[n - 1], at) then prev else PutArg(prev, args[n - 1], c, Used(at, c))
  }

  function BankSize(c: Class): nat {
    if c == Integer then INT_REGS else SSE_REGS
  }

  lemma PutArgKeeps(regs: Bank, a: Arg, c: Class, at: nat, r: nat)
    requires r < |regs| && (r < at || r >= at + Taken(a, c))
    ensures PutArg(regs, a, c, at)[r] == regs[r]
  {
  }

  lemma AdvanceUsed(a: Arg, at: Cursor, c: Class)
    requires c == Integer || c == SSE
    ensures Used(Advance(a, at), c) == Used(at, c) + if OnStack(a, at) then 0 else Taken(a, c)
  {
  }

  lemma UsedGrows(args: seq<Arg>, m: nat, n: nat, c: Class, start: Cursor)
    requires m <= n <= |args| && Within(start) && (c == Integer || c == SSE)
    ensures Used(Before(args, m, start), c) <= Used(Before(args, n, start), c) <= BankSize(c)
  {
    BeforeGrows(args, m, n, start);
  }

  /** Only registers from the cursor on change, and only below the next one. */
  lemma {:induction false} BankKeeps(regs: Bank, args: seq<Arg>, m: nat, n: nat, c: Class, start: Cursor, r: nat)
    requires m <= n <= |args| && Within(start) && (c == Integer || c == SSE) && |regs| == BankSize(c) && r < |regs|
    requires r < Used(Before(args, m, start), c) || r >= Used(Before(args, n, start), c)
    ensures BankAfter(regs, args, n, c, start)[r] == BankAfter(regs, args, m, c, start)[r]
    decreases n
  {
    if m < n {
      var at := Before(args, n - 1, start);
      UsedGrows(args, m, n - 1, c, start);
      AdvanceUsed(args[n - 1], at, c);
      BankKeeps(regs, args, m, n - 1, c, start, r);
      if !OnStack(args[n - 1], at) {
        PutArgKeeps(BankAfter(regs, args, n - 1, c, start), args[n - 1], c, Used(at, c), r);
      }
    }
  }

  /** Every eightbyte passed in a register is found in the register of its slot. */
  lemma BankHolds(regs: Bank, args: seq<Arg>, n: nat, c: Class, start: Cursor, i: nat, j: nat)
    requires n <= |args| && Within(start) && (c == Integer || c == SSE) && |regs| == BankSize(c)
    requires i < n && InRegister(args, i, j, c, start)
    ensures Slot(args, i, j, c, start) < |regs|
    ensures BankAfter(regs, args, n, c, start)[Slot(args, i, j, c, start)] == RegValue(args[i], j, c)
  {
    var slot, at := Slot(args, i, j, c, start), Before(args, i, start);
    UsedGrows(args, i, i + 1, c, start);
    AdvanceUsed(args[i], at, c);
    PutArgHolds(BankAfter(regs, args, i, c, start), args[i], c, Used(at, c), j);
    BankKeeps(regs, args, i + 1, n, c, start, slot);
  }

  lemma PutArgHolds(regs: Bank, a: Arg, c: Class, at: nat, j: nat)
    requires Takes(a, j, c) && at + Taken(a, c) <= |regs|
    ensures PutArg(regs, a, c, at)[at + if j == 1 && Takes(a, 0, c) then 1 else 0] == RegValue(a, j, c)
  {
  }

  // ---------------------------------------------------------------- setupArguments

  class CallSetup {
    var ints: Bank       // rdi, rsi, rdx, rcx, r8, r9
    var sses: Bank       // xmm0 to xmm7
    var rsp: U64
    var rax: U64
    var mem: Mem

    constructor (ints: Bank, sses: Bank, rsp: U64, rax: U64, mem: Mem)
      requires |ints| == INT_REGS && |sses| == SSE_REGS
      ensures Valid() && this.ints == ints && this.sses == sses && this.rsp == rsp && this.rax == rax && this.mem == mem
    {
      this.ints, this.sses, this.rsp, this.rax, this.mem := ints, sses, rsp, rax, mem;
    }

    ghost predicate Valid()
      reads this
    {
      |ints| == INT_REGS && |sses| == SSE_REGS
    }

    /** One eightbyte of an argument that goes to registers. */
    method PlaceWord(a: Arg, j: nat, at: Cursor) returns (next: Cursor)
      requires Valid() && j < 2 && j * 8 < a.size
      requires Takes(a, j, Integer) ==> at.ints < INT_REGS
      requires Takes(a, j, SSE) ==> at.sses < SSE_REGS
      modifies this`ints, this`sses
      ensures Valid()
      ensures ints == PutWord(old(ints), a, j, Integer, at.ints) && sses == PutWord(old(sses), a, j, SSE, at.sses)
      ensures next == Cursor(at.ints + (if Takes(a, j, Integer) then 1 else 0), at.sses + (if Takes(a, j, SSE) then 1 else 0))
    {
      next := at;
      var c := ClassAt(a, j);
      if c == Integer {
        ints := ints[at.ints := Word(a, j)];
        next := at.(ints := at.ints + 1);
      } else if c == SSE {
        sses := sses[at.sses := Word(a, j) + [0, 0, 0, 0, 0, 0, 0, 0]];
        next := at.(sses := at.sses + 1);
      }
    }

    /** The loop over the eightbytes of an argument. */
    method PlaceArg(a: Arg, at: Cursor) returns (next: Cursor)
      requires Valid() && Within(at) && !OnStack(a, at) && a.size > 0
      modifies this`ints, this`sses
      ensures Valid() && next == Advance(a, at)
      ensures ints == PutArg(old(ints), a, Integer, at.ints) && sses == PutArg(old(sses), a, SSE, at.sses)
    {
      next := PlaceWord(a, 0, at);
      if 8 < a.size {
        next := PlaceWord(a, 1, next);
      }
    }

    /** One argument: into registers, or onto the list of stack arguments. */
    method PlaceNext(a: Arg, at: Cursor, stackArgs: seq<seq<Byte>>) returns (next: Cursor, stackArgs': seq<seq<Byte>>)
      requires Valid() && Within(at) && a.size > 0
      modifies this`ints, this`sses
      ensures Valid() && next == Advance(a, at)
      ensures ints == if OnStack(a, at) then old(ints) else PutArg(old(ints), a, Integer, at.ints)
      ensures sses == if OnStack(a, at) then old(sses) else PutArg(old(sses), a, SSE, at.sses)
      ensures stackArgs' == if OnStack(a, at) then stackArgs + [Block(a)] else stackArgs
    {
      if OnStack(a, at) {
        next, stackArgs' := at, stackArgs + [Block(a)];
      } else {
        next := PlaceArg(a, at);
        stackArgs' := stackArgs;
      }
    }

    /** The loop over the arguments: registers are filled, stack arguments collected. */
    method PlaceAll(args: seq<Arg>, start: Cursor) returns (at: Cursor, stackArgs: seq<seq<Byte>>)
      requires Valid() && Within(start) && forall a <- args :: a.size > 0
      modifies this`ints, this`sses
      ensures Valid() && at == Before(args, |args|, start)
      ensures ints == BankAfter(old(ints), args, |args|, Integer, start)
      ensures sses == BankAfter(old(sses), args, |args|, SSE, start)
      ensures stackArgs == StackBlocks(args, |args|, start)
    {
      at, stackArgs := start, [];
      var i := 0;
      while i < |args|
        invariant 0 <= i <= |args| && Valid() && at == Before(args, i, start) && Within(at)
        invariant ints == BankAfter(old(ints), args, i, Integer, start)
        invariant sses == BankAfter(old(sses), args, i, SSE, start)
        invariant stackArgs == StackBlocks(args, i, start)
      {
        BeforeGrows(args, i, i + 1, start);
        at, stackArgs := PlaceNext(args[i], at, stackArgs);
        i := i + 1;
      }
    }

    /** WriteMemory, which fails on unmapped bytes. */
    method StoreBlock(addr: U64, bytes: seq<Byte>) returns (ok: bool)
      modifies this`mem
      ensures ok == Mapped(old(mem), addr, |bytes|)
      ensures mem == if ok then WriteBytes(old(mem), addr, bytes) else old(mem)
    {
      ok := addr + |bytes| <= USER_TOP && forall k | addr <= k < addr + |bytes| :: k in mem;
      if ok {
        mem := WriteBytes(mem, addr, bytes);
      }
    }

    /** The stack arguments, written upwards from the new stack pointer. */
    method StoreAll(base: U64, blocks: seq<seq<Byte>>) returns (ok: bool)
      requires blocks != []
      modifies this`mem
      ensures ok ==> Mapped(old(mem), base, |Joined(blocks)|) && mem == WriteBytes(old(mem), base, Joined(blocks))
      ensures !ok ==> !Mapped(old(mem), base, |Joined(blocks)|)
    {
      var pos, i := base, 0;
      ghost var before := mem;
      assert blocks[..0] == [] && WriteBytes(before, base, []) == before;
      hide Mapped;
      while i < |blocks|
        invariant 0 <= i <= |blocks| && pos == base + |Joined(blocks[..i])|
        invariant i > 0 ==> Mapped(before, base, |Joined(blocks[..i])|)
        invariant mem == WriteBytes(before, base, Joined(blocks[..i]))
      {
        JoinedPrefix(blocks, i);
        ok := StoreBlock(pos, blocks[i]);
        if !ok {
          UnmappedPart(before, base, pos, |blocks[i]|, |Joined(blocks)|);
          return;
        }
        WriteBytesAppend(before, base, Joined(blocks[..i]), blocks[i]);
        pos := Wrap64(pos + |blocks[i]|);
        i := i + 1;
      }
      assert blocks[..i] == blocks;
      ok := true;
    }

    /** Where the arguments start: behind the pointer to the return value, if there is one. */
    method PlaceReturnSlot(slot: Option<U64>) returns (start: Cursor)
      requires Valid()
      modifies this`ints
      ensures Valid() && start == StartAt(slot) && ints == WithSlot(old(ints), slot)
    {
      start := Cursor(0, 0);
      if slot.Some? {
        ints := ints[0 := ToLE(slot.value, 8)];
        start := Cursor(1, 0);
      }
    }

    /** The stack part: reserve, align, write, and move the stack pointer. */
    method PlaceStack(blocks: seq<seq<Byte>>) returns (ok: bool)
      modifies this`mem, this`rsp
      ensures blocks == [] ==> ok && mem == old(mem) && rsp == old(rsp)
      ensures blocks != [] ==> ok == Mapped(old(mem), StackBase(old(rsp), |Joined(blocks)|), |Joined(blocks)|)
      ensures blocks != [] && ok ==>
        rsp == StackBase(old(rsp), |Joined(blocks)|) && mem == WriteBytes(old(mem), rsp, Joined(blocks))
    {
      if |blocks| == 0 {
        return true;
      }
      var total := TotalSize(blocks);
      var base := StackBase(rsp, total);
      ok := StoreAll(base, blocks);
      if ok {
        rsp := base;
      }
    }

    /**
     setupArguments. Registers and stack end up as the left-to-right allocator says, and
     rax holds the number of SSE registers used; it fails only when a stack byte cannot be
     written.
     */
    method SetupArguments(args: seq<Arg>, slot: Option<U64>) returns (ok: bool)
      requires Valid() && forall a <- args :: a.size > 0
      modifies this
      ensures Valid()
      ensures ints == BankAfter(WithSlot(old(ints), slot), args, |args|, Integer, StartAt(slot))
      ensures sses == BankAfter(old(sses), args, |args|, SSE, StartAt(slot))
      ensures ok ==> rax == Before(args, |args|, StartAt(slot)).sses
      ensures
        var blocks := StackBlocks(args, |args|, StartAt(slot));
        var base := StackBase(old(rsp), |Joined(blocks)|);
        && (blocks == [] ==> ok && rsp == old(rsp) && mem == old(mem))
        && (blocks != [] ==> ok == Mapped(old(mem), base, |Joined(blocks)|))
        && (blocks != [] && ok ==> rsp == base && mem == WriteBytes(old(mem), base, Joined(blocks)))
    {
      var start := PlaceReturnSlot(slot);
      var at, blocks := PlaceAll(args, start);
      ok := PlaceStack(blocks);
      BeforeGrows(args, 0, |args|, start);
      if ok {
        rax := at.sses;
      }
    }
  }

  method TotalSize(blocks: seq<seq<Byte>>) returns (total: nat)
    ensures total == |Joined(blocks)|
  {
    total := 0;
    var i := 0;
    assert blocks[..0] == [];
    while i < |blocks|
      invariant 0 <= i <= |blocks| && total == |Joined(blocks[..i])|
    {
      JoinedPrefix(blocks, i);
      total := total + |blocks[i]|;
      i := i + 1;
    }
    assert blocks[..i] == blocks;
  }

  function StartAt(slot: Option<U64>): Cursor {
    Cursor(if slot.Some? then 1 else 0, 0)
  }

  function WithSlot(ints: Bank, slot: Option<U64>): (r: Bank)
    requires |ints| == INT_REGS
    ensures |r| == |ints|
  {
    if slot.Some? then ints[0 := ToLE(slot.value, 8)] else ints
  }

  /** Where on the stack argument i starts. */
  function StackOffset(args: seq<Arg>, i: nat, start: Cursor): nat
    requires i <= |args|
  {
    |Joined(StackBlocks(args, i, start))|
  }

  /** b stands at offset off of s. */
  predicate Stands(s: seq<Byte>, off: nat, b: seq<Byte>) {
    off + |b| <= |s| && s[off..off + |b|] == b
  }

  lemma StandsAppend(s: seq<Byte>, t: seq<Byte>, off: nat, b: seq<Byte>)
    requires Stands(s, off, b)
    ensures Stands(s + t, off, b)
  {
    assert (s + t)[off..off + |b|] == s[off..off + |b|];
  }

  lemma {:induction false} JoinedStands(blocks: seq<seq<Byte>>, k: nat)
    requires k < |blocks|
    ensures Stands(Joined(blocks), |Joined(blocks[..k])|, blocks[k])
  {
    var init, last := blocks[..|blocks| - 1], blocks[|blocks| - 1];
    if k < |init| {
      JoinedStands(init, k);
      assert init[..k] == blocks[..k];
      StandsAppend(Joined(init), last, |Joined(blocks[..k])|, blocks[k]);
    } else {
      assert blocks[..k] == init;
    }
  }

  predicate Prefix<T(==)>(p: seq<T>, s: seq<T>) {
    |p| <= |s| && s[..|p|] == p
  }

  lemma PrefixPush<T>(p: seq<T>, s: seq<T>, x: T)
    requires Prefix(p, s)
    ensures Prefix(p, s + [x])
  {
    assert (s + [x])[..|p|] == s[..|p|];
  }

  /** Later arguments go behind the stack arguments there are. */
  lemma {:induction false} BlocksGrow(args: seq<Arg>, i: nat, n: nat, start: Cursor)
    requires i <= n <= |args|
    ensures Prefix(StackBlocks(args, i, start), StackBlocks(args, n, start))
    decreases n
  {
    if i < n {
      BlocksGrow(args, i, n - 1, start);
      PrefixPush(StackBlocks(args, i, start), StackBlocks(args, n - 1, start), Block(args[n - 1]));
    }
  }

  lemma BlockStands(before: seq<seq<Byte>>, b: seq<Byte>, all: seq<seq<Byte>>)
    requires Prefix(before + [b], all)
    ensures Stands(Joined(all), |Joined(before)|, b)
  {
    var k := |before|;
    assert all[..k + 1][k] == b && all[..k + 1][..k] == before;
    assert all[..k] == before;
    JoinedStands(all, k);
  }

  /** Stack arguments lie one behind the other, each whole, from the lowest address on. */
  lemma StackHolds(args: seq<Arg>, n: nat, start: Cursor, i: nat)
    requires i < n <= |args| && OnStack(args[i], Before(args, i, start))
    ensures StackOffset(args, i + 1, start) == StackOffset(args, i, start) + |Block(args[i])|
    ensures Stands(Joined(StackBlocks(args, n, start)), StackOffset(args, i, start), Block(args[i]))
  {
    JoinedPush(StackBlocks(args, i, start), Block(args[i]));
    BlocksGrow(args, i + 1, n, start);
    BlockStands(StackBlocks(args, i, start), Block(args[i]), StackBlocks(args, n, start));
  }

  /** The stack pointer is aligned to 16 after a call set up with stack arguments, and otherwise only if it was. */
  lemma AlignedOnlyWithStack(rsp: U64, blocks: seq<seq<Byte>>)
    ensures (if blocks == [] then rsp else StackBase(rsp, |Joined(blocks)|)) % 16 == 0 <==> blocks != [] || rsp % 16 == 0
  {
  }

  /** Blocks laid end to end. */
  function Joined(blocks: seq<seq<Byte>>): seq<Byte> {
    if blocks == [] then [] else Joined(blocks[..|blocks| - 1]) + blocks[|blocks| - 1]
  }

  lemma JoinedPush(blocks: seq<seq<Byte>>, b: seq<Byte>)
    ensures Joined(blocks + [b]) == Joined(blocks) + b
  {
    assert (blocks + [b])[..|blocks|] == blocks;
  }

  lemma {:induction false} JoinedPrefix(blocks: seq<seq<Byte>>, i: nat)
    requires i < |blocks|
    ensures Joined(blocks[..i + 1]) == Joined(blocks[..i]) + blocks[i]
    ensures |Joined(blocks[..i + 1])| <= |Joined(blocks)|
    decreases |blocks| - i
  {
    assert blocks[..i + 1] == blocks[..i] + [blocks[i]];
    JoinedPush(blocks[..i], blocks[i]);
    if i + 1 < |blocks| {
      JoinedPrefix(blocks, i + 1);
    } else {
      assert blocks[..i + 1] == blocks;
    }
  }

  lemma UnmappedPart(m: Mem, base: nat, pos: nat, n: nat, total: nat)
    requires base <= pos && pos + n <= base + total && !Mapped(m, pos, n)
    ensures !Mapped(m, base, total)
  {
  }
}
