/**
 What whole expressions evaluate to: the locations compilers describe, alone or
 in pieces, and conditional values.
 */
module DwarfLocations {
  import opened Bytes
  import opened Tracee
  import opened CfiReading
  import opened DwarfOps
  import opened DwarfMachine
  import opened DwarfTrees

  // ---------------------------------------------------------------- places

  /** Where a variable, or a piece of it, is: nowhere, in memory, computed, in a register, or given. */
  datatype Place =
    | Missing
    | At(address: Tree)
    | ValueOf(value: Tree)
    | InReg1(reg: U64)
    | Given(bytes: seq<Byte>)

  /** Registers are locations only outside of call frame information. */
  predicate Placeable(info: bool, p: Place) {
    match p
    case Missing => true
    case At(t) => Compilable(info, t, [], 0)
    case ValueOf(t) => Compilable(info, t, [], 0)
    case InReg1(_) => !info
    case Given(b) => |b| < TWO64
  }

  function PlaceCode(info: bool, p: Place): seq<Op>
    requires Placeable(info, p)
  {
    match p
    case Missing => []
    case At(t) => Code(info, t)
    case ValueOf(t) => Code(info, t) + [StackValue]
    case InReg1(reg) => [InReg(reg)]
    case Given(b) => [Implicit(b)]
  }

  /** The location a place stands for; None when its tree has no value. */
  function LocationOf(env: Env, p: Place): Option<Location> {
    match p
    case Missing => Some(Nowhere)
    case At(t) => (match TreeValue(env, t, []) case None => None case Some(x) => Some(Address(Wrap64(x))))
    case ValueOf(t) => (match TreeValue(env, t, []) case None => None case Some(x) => Some(Literal(Wrap64(x))))
    case InReg1(reg) => Some(Register(reg))
    case Given(b) => Some(Inline(b))
  }

  /** Nothing is pending. */
  predicate Idle(m: Machine) {
    m.stack == [] && m.recent.None? && m.isAddress
  }

  /** After m the machine has found a location, and taking it leads back to m. */
  predicate Found(after: Option<Machine>, m: Machine, location: Option<Location>) {
    && after.Some? == location.Some?
    && (after.Some? ==> Current(after.value) == location.value && Taken(after.value) == m && after.value.parts == m.parts)
  }

  /** The code of a place finds its location, or fails when there is none. */
  lemma PlaceCorrect(env: Env, p: Place, m: Machine)
    requires Placeable(env.inFrameInfo, p) && Idle(m)
    ensures Found(Exec(env, PlaceCode(env.inFrameInfo, p), m), m, LocationOf(env, p))
  {
    match p
    case Missing =>
    case At(t) => ValueFound(env, t, m);
    case ValueOf(t) =>
      ValueFound(env, t, m);
      ExecThen(env, Code(env.inFrameInfo, t), [StackValue], m, TreeValue(env, t, []));
      if TreeValue(env, t, []).Some? {
        OneOp(env, StackValue, Push(m, Wrap64(TreeValue(env, t, []).value)));
      }
    case InReg1(reg) => OneOp(env, InReg(reg), m);
    case Given(b) => OneOp(env, Implicit(b), m);
  }

  lemma ValueFound(env: Env, t: Tree, m: Machine)
    requires Compilable(env.inFrameInfo, t, [], 0) && Idle(m)
    ensures Exec(env, Code(env.inFrameInfo, t), m) == Pushed(m, TreeValue(env, t, []))
    ensures Found(Pushed(m, TreeValue(env, t, [])), m, LocationOf(env, At(t)))
    ensures TreeValue(env, t, []).Some? ==>
      var m' := Push(m, Wrap64(TreeValue(env, t, []).value));
      Found(Some(m'.(isAddress := false)), m, LocationOf(env, ValueOf(t)))
  {
    CompileCorrect(env, t, [], 0, m, []);
    if TreeValue(env, t, []).Some? {
      var one := Push(m, Wrap64(TreeValue(env, t, []).value));
      assert one.stack[..0] == m.stack;
    }
  }

  // ---------------------------------------------------------------- pieces

  datatype Chunk = Chunk(place: Place, bitSize: U64, bitOffset: U64)

  predicate AllPlaceable(info: bool, chunks: seq<Chunk>) {
    forall c <- chunks :: Placeable(info, c.place)
  }

  function ChunkCode(info: bool, chunks: seq<Chunk>): seq<Op>
    requires AllPlaceable(info, chunks)
  {
    if chunks == [] then []
    else PlaceCode(info, chunks[0].place) + [Piece(chunks[0].bitSize, chunks[0].bitOffset)] + ChunkCode(info, chunks[1..])
  }

  /** The pieces in order; None when one of them has no location. */
  function PartsOf(env: Env, chunks: seq<Chunk>): Option<seq<Part>> {
    if chunks == [] then Some([])
    else
      match (LocationOf(env, chunks[0].place), PartsOf(env, chunks[1..]))
      case (Some(l), Some(rest)) => Some([Part(l, chunks[0].bitSize, chunks[0].bitOffset)] + rest)
      case _ => None
  }

  lemma FoundNone(after: Option<Machine>, m: Machine, location: Option<Location>)
    requires Found(after, m, location)
    ensures after.Some? == location.Some?
  {
  }

  lemma FoundSome(after: Option<Machine>, m: Machine, location: Option<Location>)
    requires Found(after, m, location) && location.Some?
    ensures after.Some? && Found(Some(after.value), m, Some(location.value))
  {
  }

  /** One piece: the location found is taken, and the machine is idle again. */
  lemma PieceTaken(env: Env, found: Machine, m: Machine, location: Location, c: Chunk)
    requires Found(Some(found), m, Some(location))
    ensures Exec(env, [Piece(c.bitSize, c.bitOffset)], found) == Some(m.(parts := m.parts + [Part(location, c.bitSize, c.bitOffset)]))
  {
    OneOp(env, Piece(c.bitSize, c.bitOffset), found);
  }

  /** The code of the pieces collects them in order, or fails if one has no location. */
  lemma {:induction false} ChunksCorrect(env: Env, chunks: seq<Chunk>, m: Machine)
    requires AllPlaceable(env.inFrameInfo, chunks) && Idle(m)
    ensures Exec(env, ChunkCode(env.inFrameInfo, chunks), m) ==
            match PartsOf(env, chunks) case None => None case Some(parts) => Some(m.(parts := m.parts + parts))
  {
    hide PlaceCode, LocationOf, Effect, Found;
    if chunks == [] {
      assert m.parts + [] == m.parts;
      return;
    }
    var c, info := chunks[0], env.inFrameInfo;
    var p, q, r := PlaceCode(info, c.place), [Piece(c.bitSize, c.bitOffset)], ChunkCode(info, chunks[1..]);
    assert p + q + r == p + (q + r);
    FoldAppend(Applier(env), p, q + r, m);
    PlaceCorrect(env, c.place, m);
    FoundNone(Exec(env, p, m), m, LocationOf(env, c.place));
    if LocationOf(env, c.place).Some? {
      FoundSome(Exec(env, p, m), m, LocationOf(env, c.place));
      var found := Exec(env, p, m).value;
      var location := LocationOf(env, c.place).value;
      FoldAppend(Applier(env), q, r, found);
      PieceTaken(env, found, m, location, c);
      var next := m.(parts := m.parts + [Part(location, c.bitSize, c.bitOffset)]);
      ChunksCorrect(env, chunks[1..], next);
      if PartsOf(env, chunks[1..]).Some? {
        assert next.parts + PartsOf(env, chunks[1..]).value == m.parts + PartsOf(env, chunks).value;
      }
    }
  }

  lemma {:induction false} ChunksStraight(info: bool, chunks: seq<Chunk>)
    requires AllPlaceable(info, chunks)
    ensures Straight(ChunkCode(info, chunks))
  {
    if chunks != [] {
      PlaceStraight(info, chunks[0].place);
      ChunksStraight(info, chunks[1..]);
    }
  }

  lemma PlaceStraight(info: bool, p: Place)
    requires Placeable(info, p)
    ensures Straight(PlaceCode(info, p))
  {
    match p
    case At(t) => CompileStraight(info, t, [], 0);
    case ValueOf(t) => CompileStraight(info, t, [], 0);
    case _ =>
  }

  // ---------------------------------------------------------------- whole expressions

  /** A whole expression of straight code. */
  lemma WholeRun(env: Env, ops: seq<Op>, data: seq<Byte>, m: Machine, fuel: nat)
    requires Straight(ops) && data == EncodeOps(ops)
    ensures RunFor(env, data, 0, m, fuel + |ops|) == match Exec(env, ops, m) case None => Failed case Some(m') => Finished(m')
  {
    assert data == [] + EncodeOps(ops) + [] && |[] + EncodeOps(ops)| == |data|;
    RunStraight(env, [], ops, [], data, m, fuel);
  }

  /** The bytes of a place evaluate to its location, and to an error exactly when it has none. */
  lemma EvaluatePlace(env: Env, p: Place, data: seq<Byte>, fuel: nat)
    requires Placeable(env.inFrameInfo, p) && data == EncodeOps(PlaceCode(env.inFrameInfo, p))
    ensures
      var outcome := RunFor(env, data, 0, Start(None), fuel + |PlaceCode(env.inFrameInfo, p)|);
      match LocationOf(env, p)
      case None => outcome == Failed
      case Some(l) => outcome.Finished? && ResultOf(outcome.m) == Single(l)
  {
    PlaceStraight(env.inFrameInfo, p);
    PlaceCorrect(env, p, Start(None));
    WholeRun(env, PlaceCode(env.inFrameInfo, p), data, Start(None), fuel);
  }

  /** The bytes of pieces evaluate to the pieces in order, and to an error exactly when one has no location. */
  lemma EvaluateChunks(env: Env, chunks: seq<Chunk>, data: seq<Byte>, fuel: nat)
    requires AllPlaceable(env.inFrameInfo, chunks) && chunks != [] && data == EncodeOps(ChunkCode(env.inFrameInfo, chunks))
    ensures
      var outcome := RunFor(env, data, 0, Start(None), fuel + |ChunkCode(env.inFrameInfo, chunks)|);
      match PartsOf(env, chunks)
      case None => outcome == Failed
      case Some(parts) => outcome.Finished? && ResultOf(outcome.m) == Composite(parts)
  {
    ChunksStraight(env.inFrameInfo, chunks);
    ChunksCorrect(env, chunks, Start(None));
    WholeRun(env, ChunkCode(env.inFrameInfo, chunks), data, Start(None), fuel);
  }

  // ---------------------------------------------------------------- branches

  /** The transition of a branch. */
  lemma BranchStep(env: Env, prefix: seq<Byte>, op: Op, rest: seq<Byte>, data: seq<Byte>, m: Machine)
    requires (op.Skip? || op.Bra?) && EncodableOp(op) && op.delta >= 0 && data == prefix + EncodeOp(op) + rest
    ensures |prefix| < |data|
    ensures StepAt(env, data, |prefix|, m) ==
            if op.Bra? && m.stack == [] then Fault
            else
              var taken := op.Skip? || Top(m, 0) != 0;
              Go(|prefix + EncodeOp(op)| + if taken then op.delta else 0, if op.Bra? then m.(stack := m.stack[..|m.stack| - 1]) else m)
  {
    OpRoundTrip(prefix, op, rest);
    hide OpAt, EncodeOp;
    assert |prefix + EncodeOp(op)| == |prefix| + |EncodeOp(op)|;
  }

  lemma RunOnce(env: Env, data: seq<Byte>, pos: nat, m: Machine, fuel: nat)
    requires pos < |data|
    ensures RunFor(env, data, pos, m, fuel + 1) ==
            match StepAt(env, data, pos, m) case Fault => Failed case Go(p, m') => RunFor(env, data, p, m', fuel)
  {
    hide StepAt;
  }

  /** One branch of a run that is not over. */
  lemma BranchTurn(env: Env, prefix: seq<Byte>, op: Op, rest: seq<Byte>, data: seq<Byte>, m: Machine, fuel: nat)
    requires (op.Skip? || op.Bra?) && EncodableOp(op) && op.delta >= 0 && data == prefix + EncodeOp(op) + rest
    ensures RunFor(env, data, |prefix|, m, fuel + 1) ==
            if op.Bra? && m.stack == [] then Failed
            else
              var taken := op.Skip? || Top(m, 0) != 0;
              var after := if op.Bra? then m.(stack := m.stack[..|m.stack| - 1]) else m;
              RunFor(env, data, |prefix + EncodeOp(op)| + if taken then op.delta else 0, after, fuel)
  {
    hide StepAt, EncodeOp, RunFor;
    BranchStep(env, prefix, op, rest, data, m);
    RunOnce(env, data, |prefix|, m, fuel);
  }

  /** EvaluateTree, as a run. */
  lemma RunTree(env: Env, prefix: seq<Byte>, t: Tree, ops: seq<Op>, code: seq<Byte>, rest: seq<Byte>, data: seq<Byte>, m: Machine, fuel: nat)
    requires Compilable(env.inFrameInfo, t, [], 0) && ops == Code(env.inFrameInfo, t) && code == EncodeOps(ops) && data == prefix + code + rest
    ensures RunFor(env, data, |prefix|, m, fuel + |ops|) ==
            match TreeValue(env, t, []) case None => Failed case Some(v) => RunFor(env, data, |prefix + code|, Push(m, Wrap64(v)), fuel)
  {
    hide Code, EncodeOps, TreeValue;
    EvaluateTree(env, prefix, t, ops, rest, data, m, fuel);
  }

  /**
   A conditional value: the condition, a branch if it is not 0 to the code of `then`, the code of
   `otherwise`, and a jump over the rest.
   */
  ghost predicate Conditional(data: seq<Byte>, prefix: seq<Byte>, c: seq<Op>, bra: Op, otherwise: seq<Op>, skip: Op, then': seq<Op>, rest: seq<Byte>) {
    && Straight(c) && Straight(otherwise) && Straight(then')
    && data == prefix + EncodeOps(c) + EncodeOp(bra) + EncodeOps(otherwise) + EncodeOp(skip) + EncodeOps(then') + rest
    && bra.Bra? && EncodableOp(bra) && bra.delta == |EncodeOps(otherwise)| + |EncodeOp(skip)|
    && skip.Skip? && EncodableOp(skip) && skip.delta == |EncodeOps(then')|
  }

  /** A run goes on behind a conditional with the value chosen by the condition. */
  lemma ConditionalCorrect(env: Env, data: seq<Byte>, prefix: seq<Byte>, c: Tree, bra: Op, otherwise: Tree, skip: Op, then': Tree, rest: seq<Byte>,
                           m: Machine, fuel: nat)
    requires Compilable(env.inFrameInfo, c, [], 0) && Compilable(env.inFrameInfo, otherwise, [], 0) && Compilable(env.inFrameInfo, then', [], 0)
    requires Conditional(data, prefix, Code(env.inFrameInfo, c), bra, Code(env.inFrameInfo, otherwise), skip, Code(env.inFrameInfo, then'), rest)
    requires TreeValue(env, c, []).Some?
    ensures
      var info, yes := env.inFrameInfo, Wrap64(TreeValue(env, c, []).value) != 0;
      var chosen := if yes then then' else otherwise;
      var steps := |Code(info, c)| + 1 + |Code(info, chosen)| + if yes then 0 else 1;
      RunFor(env, data, |prefix|, m, fuel + steps) ==
      match TreeValue(env, chosen, [])
      case None => Failed
      case Some(v) => RunFor(env, data, |data| - |rest|, Push(m, Wrap64(v)), fuel)
  {
    hide Compile, Compilable, Code, EncodeOps, EncodeOp, TreeValue, RunFor, EncodableOp, Straight;
    var info, v := env.inFrameInfo, Wrap64(TreeValue(env, c, []).value);
    var C, B, A := EncodeOps(Code(info, c)), EncodeOps(Code(info, otherwise)), EncodeOps(Code(info, then'));
    if v != 0 {
      var steps := |Code(info, then')|;
      RunTree(env, prefix, c, Code(info, c), C, EncodeOp(bra) + B + EncodeOp(skip) + A + rest, data, m, fuel + steps + 1);
      BranchTaken(env, prefix, C, bra, B, skip, A, rest, data, m, v, fuel + steps);
      RunTree(env, prefix + C + EncodeOp(bra) + B + EncodeOp(skip), then', Code(info, then'), A, rest, data, m, fuel);
      assert |prefix + C + EncodeOp(bra) + B + EncodeOp(skip) + A| == |data| - |rest|;
    } else {
      var steps := |Code(info, otherwise)|;
      RunTree(env, prefix, c, Code(info, c), C, EncodeOp(bra) + B + EncodeOp(skip) + A + rest, data, m, fuel + 1 + steps + 1);
      BranchNotTaken(env, prefix, C, bra, B, skip, A, rest, data, m, fuel + 1 + steps);
      RunTree(env, prefix + C + EncodeOp(bra), otherwise, Code(info, otherwise), B, EncodeOp(skip) + A + rest, data, m, fuel + 1);
      if TreeValue(env, otherwise, []).Some? {
        SkipOver(env, prefix + C + EncodeOp(bra) + B, skip, A, rest, data, Push(m, Wrap64(TreeValue(env, otherwise, []).value)), fuel);
      }
    }
  }

  /** Behind the condition, with a value that is not 0 on top. */
  lemma BranchTaken(env: Env, prefix: seq<Byte>, C: seq<Byte>, bra: Op, B: seq<Byte>, skip: Op, A: seq<Byte>, rest: seq<Byte>, data: seq<Byte>,
                    m: Machine, v: U64, fuel: nat)
    requires data == prefix + C + EncodeOp(bra) + B + EncodeOp(skip) + A + rest && bra.Bra? && EncodableOp(bra)
    requires bra.delta == |B| + |EncodeOp(skip)| && v != 0
    ensures RunFor(env, data, |prefix + C|, Push(m, v), fuel + 1) ==
            RunFor(env, data, |prefix + C + EncodeOp(bra) + B + EncodeOp(skip)|, m, fuel)
    ensures data == prefix + C + (EncodeOp(bra) + B + EncodeOp(skip) + A + rest)
    ensures data == prefix + C + EncodeOp(bra) + B + EncodeOp(skip) + A + rest
  {
    hide RunFor, EncodeOp;
    var one := Push(m, v);
    assert one.stack[..|one.stack| - 1] == m.stack && Top(one, 0) == v;
    assert data == (prefix + C) + EncodeOp(bra) + (B + EncodeOp(skip) + A + rest);
    BranchTurn(env, prefix + C, bra, B + EncodeOp(skip) + A + rest, data, one, fuel);
  }

  /** Behind the condition, with 0 on top. */
  lemma BranchNotTaken(env: Env, prefix: seq<Byte>, C: seq<Byte>, bra: Op, B: seq<Byte>, skip: Op, A: seq<Byte>, rest: seq<Byte>, data: seq<Byte>,
                       m: Machine, fuel: nat)
    requires data == prefix + C + EncodeOp(bra) + B + EncodeOp(skip) + A + rest && bra.Bra? && EncodableOp(bra) && bra.delta >= 0
    ensures RunFor(env, data, |prefix + C|, Push(m, 0), fuel + 1) == RunFor(env, data, |prefix + C + EncodeOp(bra)|, m, fuel)
    ensures data == prefix + C + (EncodeOp(bra) + B + EncodeOp(skip) + A + rest)
    ensures data == prefix + C + EncodeOp(bra) + B + (EncodeOp(skip) + A + rest)
  {
    hide RunFor, EncodeOp;
    var one := Push(m, 0);
    assert one.stack[..|one.stack| - 1] == m.stack && Top(one, 0) == 0;
    assert data == (prefix + C) + EncodeOp(bra) + (B + EncodeOp(skip) + A + rest);
    BranchTurn(env, prefix + C, bra, B + EncodeOp(skip) + A + rest, data, one, fuel);
  }

  /** The jump over what is not wanted. */
  lemma SkipOver(env: Env, before: seq<Byte>, skip: Op, A: seq<Byte>, rest: seq<Byte>, data: seq<Byte>, m: Machine, fuel: nat)
    requires data == before + EncodeOp(skip) + A + rest && skip.Skip? && EncodableOp(skip) && skip.delta == |A|
    ensures RunFor(env, data, |before|, m, fuel + 1) == RunFor(env, data, |data| - |rest|, m, fuel)
  {
    hide RunFor, EncodeOp;
    assert data == before + EncodeOp(skip) + (A + rest);
    BranchTurn(env, before, skip, A + rest, data, m, fuel);
  }
}
