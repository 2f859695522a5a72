/**
 executeUnwindRules: from the rules of a row to the caller's registers. The
 general-purpose registers live in the 216 bytes of user_regs_struct; rules are
 applied one by one, in whatever order the rule map is iterated.
 */
module RegisterRules {
  import opened Bytes
  import opened Memory
  import opened Tracee
  import opened CallFrame

  const GPR_BYTES := 216
  const RSP: U64 := 7

  /** The offset in user_regs_struct of a general-purpose register, by DWARF number. */
  function GprOffset(id: U64): (off: Option<nat>)
    ensures off.Some? ==> off.value % 8 == 0 && off.value + 8 <= GPR_BYTES
  {
    if id == 0 then Some(80) else if id == 1 then Some(96) else if id == 2 then Some(88)
    else if id == 3 then Some(40) else if id == 4 then Some(104) else if id == 5 then Some(112)
    else if id == 6 then Some(32) else if id == 7 then Some(152)
    else if 8 <= id <= 11 then Some(72 - 8 * (id - 8))
    else if 12 <= id <= 15 then Some(24 - 8 * (id - 12))
    else if id == 16 then Some(128) else if id == 49 then Some(144) else if id == 50 then Some(192)
    else if id == 51 then Some(136) else if id == 52 then Some(160) else if id == 53 then Some(184)
    else if id == 54 then Some(200) else if id == 55 then Some(208)
    else None
  }

  datatype RegisterName =
    | Rax | Rbx | Rcx | Rdx | Rsi | Rdi | Rbp | Rsp
    | R8 | R9 | R10 | R11 | R12 | R13 | R14 | R15
    | Rip | Eflags | Cs | Ss | Ds | Es | Fs | Gs | OrigRax | FsBase | GsBase

  /** The order of the eight-byte fields of user_regs_struct in sys/user.h. */
  const USER_REGS: seq<RegisterName> :=
    [R15, R14, R13, R12, Rbp, Rbx, R11, R10, R9, R8, Rax, Rcx, Rdx, Rsi, Rdi, OrigRax,
     Rip, Cs, Eflags, Rsp, Ss, FsBase, GsBase, Ds, Es, Fs, Gs]

  /** The DWARF numbers 0 to 16 and 49 to 55 of figure 3.36 of the System V AMD64 psABI; 16 is the return address. */
  const DWARF_LOW: seq<RegisterName> := [Rax, Rdx, Rcx, Rbx, Rsi, Rdi, Rbp, Rsp, R8, R9, R10, R11, R12, R13, R14, R15, Rip]
  const DWARF_HIGH: seq<RegisterName> := [Eflags, Es, Cs, Ss, Ds, Fs, Gs]

  function DwarfName(id: U64): Option<RegisterName> {
    if id <= 16 then Some(DWARF_LOW[id]) else if 49 <= id <= 55 then Some(DWARF_HIGH[id - 49]) else None
  }

  /** A register's offset is that of the field of the same name. */
  lemma OffsetNames(id: U64)
    ensures GprOffset(id).Some? <==> DwarfName(id).Some?
    ensures GprOffset(id).Some? ==> USER_REGS[GprOffset(id).value / 8] == DwarfName(id).value
  {
    assert |USER_REGS| * 8 == GPR_BYTES;
  }

  /** The DWARF numbers of the floating-point registers. */
  predicate FloatId(id: U64) {
    17 <= id <= 48 || 64 <= id <= 66
  }

  /** No two registers share storage. */
  lemma OffsetsDistinct(a: U64, b: U64)
    requires GprOffset(a).Some? && GprOffset(b).Some? && a != b
    ensures GprOffset(a).value + 8 <= GprOffset(b).value || GprOffset(b).value + 8 <= GprOffset(a).value
  {
  }

  /** The eight bytes at off as a number. */
  function Get(s: seq<Byte>, off: nat): (v: U64)
    requires off + 8 <= |s|
  {
    WordBound(s[off..off + 8]);
    FromLE(s[off..off + 8])
  }

  function Put(s: seq<Byte>, off: nat, v: U64): (r: seq<Byte>)
    requires off + 8 <= |s|
    ensures |r| == |s|
  {
    s[..off] + ToLE(v, 8) + s[off + 8..]
  }

  lemma GetPut(s: seq<Byte>, off: nat, v: U64, at: nat)
    requires off + 8 <= |s| && at + 8 <= |s|
    requires at == off || at + 8 <= off || off + 8 <= at
    ensures Get(Put(s, off, v), at) == if at == off then v else Get(s, at)
  {
    WordRoundTrip(v);
    assert Put(s, off, v)[at..at + 8] == if at == off then ToLE(v, 8) else s[at..at + 8];
  }

  // ---------------------------------------------------------------- rules

  /** What a DWARF expression leaves: an address, something else, or an error. */
  datatype Evaluated = AddressResult(address: U64) | OtherResult | EvalError

  /** The tracee as the rules see it: words of memory, and expressions, which may start with the CFA on the stack. */
  datatype Tracing = Tracing(word: U64 -> Option<U64>, eval: (seq<Byte>, Option<U64>) -> Evaluated)

  datatype Outcome = Keep | Becomes(value: U64) | Fails

  function Fetch(t: Tracing, addr: U64): Outcome {
    match t.word(addr)
    case None => Fails
    case Some(v) => Becomes(v)
  }

  /** What one rule says about its register, given the old registers and the CFA. */
  function RuleOutcome(rule: Rule, regs: seq<Byte>, cfa: U64, t: Tracing): Outcome
    requires |regs| == GPR_BYTES
  {
    match rule
    case Undefined => Keep
    case SameValue => Keep
    case InRegister(other) => if GprOffset(other).Some? then Becomes(Get(regs, GprOffset(other).value)) else Keep
    case Offset(offset) => Fetch(t, Wrap64(cfa + offset))
    case ValOffset(offset) => Becomes(Wrap64(cfa + offset))
    case AtExpression(expr) =>
      (match t.eval(expr, Some(cfa))
       case AddressResult(a) => Fetch(t, a)
       case OtherResult => Keep
       case EvalError => Fails)
    case IsExpression(expr) =>
      match t.eval(expr, Some(cfa))
      case AddressResult(a) => Becomes(a)
      case OtherResult => Keep
      case EvalError => Fails
  }

  /** The canonical frame address. */
  function CfaOf(rule: CfaRule, regs: seq<Byte>, t: Tracing): Option<U64>
    requires |regs| == GPR_BYTES
  {
    if rule.isExpr then
      (match t.eval(rule.expr, None)
       case AddressResult(a) => Some(a)
       case _ => None)
    else if GprOffset(rule.reg).None? then None
    else Some(Wrap64(Get(regs, GprOffset(rule.reg).value) + rule.offset))
  }

  /** Rules about the general-purpose registers, or about numbers that name no register. */
  predicate Integral(cfa: CfaRule, rules: Rules) {
    && (!cfa.isExpr ==> !FloatId(cfa.reg))
    && forall id <- rules :: !FloatId(id) && (rules[id].InRegister? ==> !FloatId(rules[id].reg))
  }

  /** The caller's value of a register: what its rule says, else the CFA for rsp, else the old value. */
  function CallerValue(id: U64, rules: Rules, regs: seq<Byte>, cfa: U64, t: Tracing): U64
    requires |regs| == GPR_BYTES && GprOffset(id).Some?
  {
    if id in rules && RuleOutcome(rules[id], regs, cfa, t).Becomes? then RuleOutcome(rules[id], regs, cfa, t).value
    else if id == RSP then cfa
    else Get(regs, GprOffset(id).value)
  }

  /** Byte k belongs to register id. */
  predicate Stores(id: U64, k: nat) {
    GprOffset(id).Some? && GprOffset(id).value <= k < GprOffset(id).value + 8
  }

  /** The simultaneous assignment: every register has its caller's value and no other byte moved. */
  ghost predicate Assigned(after: seq<Byte>, rules: Rules, regs: seq<Byte>, cfa: U64, t: Tracing)
    requires |regs| == GPR_BYTES
  {
    && |after| == GPR_BYTES
    && (forall id: U64 :: GprOffset(id).Some? ==> Get(after, GprOffset(id).value) == CallerValue(id, rules, regs, cfa, t))
    && (forall k :: 0 <= k < GPR_BYTES && (forall id: U64 :: !Stores(id, k)) ==> after[k] == regs[k])
  }

  /** Some rule for a register fails. */
  ghost predicate SomeFails(rules: Rules, regs: seq<Byte>, cfa: U64, t: Tracing)
    requires |regs| == GPR_BYTES
  {
    exists id: U64 :: id in rules && GprOffset(id).Some? && RuleOutcome(rules[id], regs, cfa, t).Fails?
  }

  method WriteRegisterValue(regs: array<Byte>, off: nat, v: U64)
    requires off + 8 <= regs.Length
    modifies regs
    ensures regs[..] == Put(old(regs[..]), off, v)
  {
    var bytes := ToLE(v, 8);
    forall k | 0 <= k < 8 {
      regs[off + k] := bytes[k];
    }
  }

  /** Only the rules outside `todo` have been applied. */
  function Applied(rules: Rules, todo: set<U64>): Rules {
    map id | id in rules && id !in todo :: rules[id]
  }

  lemma ApplyOne(before: seq<Byte>, after: seq<Byte>, rules: Rules, todo: set<U64>, id: U64, regs: seq<Byte>, cfa: U64, t: Tracing)
    requires |regs| == GPR_BYTES && id in todo && todo <= rules.Keys
    requires Assigned(before, Applied(rules, todo), regs, cfa, t)
    requires
      var outcome := if GprOffset(id).Some? then RuleOutcome(rules[id], regs, cfa, t) else Keep;
      match outcome
      case Keep => after == before
      case Becomes(v) => after == Put(before, GprOffset(id).value, v)
      case Fails => false
    ensures Assigned(after, Applied(rules, todo - {id}), regs, cfa, t)
  {
    forall other: U64 | GprOffset(other).Some?
      ensures Get(after, GprOffset(other).value) == CallerValue(other, Applied(rules, todo - {id}), regs, cfa, t)
    {
      if GprOffset(id).Some? && RuleOutcome(rules[id], regs, cfa, t).Becomes? {
        if other != id {
          OffsetsDistinct(id, other);
        }
        GetPut(before, GprOffset(id).value, RuleOutcome(rules[id], regs, cfa, t).value, GprOffset(other).value);
      }
    }
    forall k | 0 <= k < GPR_BYTES && (forall other: U64 :: !Stores(other, k))
      ensures after[k] == regs[k]
    {
      assert !Stores(id, k);
    }
  }

  lemma RspDefault(regs: seq<Byte>, cfa: U64, t: Tracing)
    requires |regs| == GPR_BYTES
    ensures Assigned(Put(regs, 152, cfa), map[], regs, cfa, t)
  {
    forall id: U64 | GprOffset(id).Some?
      ensures Get(Put(regs, 152, cfa), GprOffset(id).value) == CallerValue(id, map[], regs, cfa, t)
    {
      if id != RSP {
        OffsetsDistinct(id, RSP);
      }
      GetPut(regs, 152, cfa, GprOffset(id).value);
    }
    forall k | 0 <= k < GPR_BYTES && (forall other: U64 :: !Stores(other, k))
      ensures Put(regs, 152, cfa)[k] == regs[k]
    {
      assert !Stores(RSP, k);
    }
  }

  /** One rule of the loop; false is the error return. */
  method ApplyRule(id: U64, rule: Rule, regs: seq<Byte>, unwound: array<Byte>, cfa: U64, t: Tracing) returns (ok: bool)
    requires |regs| == GPR_BYTES && unwound.Length == GPR_BYTES
    modifies unwound
    ensures ok == !(GprOffset(id).Some? && RuleOutcome(rule, regs, cfa, t).Fails?)
    ensures
      match if GprOffset(id).Some? then RuleOutcome(rule, regs, cfa, t) else Keep
      case Becomes(v) => unwound[..] == Put(old(unwound[..]), GprOffset(id).value, v)
      case _ => unwound[..] == old(unwound[..])
  {
    var off := GprOffset(id);
    if off.None? {
      return true;
    }
    var outcome := RuleOutcome(rule, regs, cfa, t);
    if outcome.Becomes? {
      WriteRegisterValue(unwound, off.value, outcome.value);
    }
    ok := !outcome.Fails?;
  }

  lemma AppliedFails(rules: Rules, todo: set<U64>, id: U64, regs: seq<Byte>, cfa: U64, t: Tracing)
    requires |regs| == GPR_BYTES && id in todo && todo <= rules.Keys && !SomeFails(Applied(rules, todo), regs, cfa, t)
    requires !(GprOffset(id).Some? && RuleOutcome(rules[id], regs, cfa, t).Fails?)
    ensures !SomeFails(Applied(rules, todo - {id}), regs, cfa, t)
  {
    forall other: U64 | other in Applied(rules, todo - {id}) && GprOffset(other).Some?
      ensures !RuleOutcome(Applied(rules, todo - {id})[other], regs, cfa, t).Fails?
    {
      if other != id {
        assert Applied(rules, todo)[other] == rules[other];
      }
    }
  }

  /**
   executeUnwindRules. Whatever order the rules are taken in, the new registers are
   the simultaneous assignment from the old ones, and an error is returned exactly
   when the CFA or some rule for a register cannot be computed.
   */
  method ExecuteUnwindRules(cfaRule: CfaRule, rules: Rules, regs: seq<Byte>, t: Tracing) returns (r: Option<U64>, unwound: array<Byte>)
    requires |regs| == GPR_BYTES && Integral(cfaRule, rules)
    ensures fresh(unwound)
    ensures r.None? <==> CfaOf(cfaRule, regs, t).None? || SomeFails(rules, regs, CfaOf(cfaRule, regs, t).value, t)
    ensures r.Some? ==> r == CfaOf(cfaRule, regs, t) && Assigned(unwound[..], rules, regs, r.value, t)
  {
    unwound := new Byte[GPR_BYTES](k requires 0 <= k < GPR_BYTES => regs[k]);
    assert unwound[..] == regs;
    var cfa := CfaOf(cfaRule, regs, t);
    if cfa.None? {
      return None, unwound;
    }
    WriteRegisterValue(unwound, GprOffset(RSP).value, cfa.value);
    RspDefault(regs, cfa.value, t);
    var todo := rules.Keys;
    assert Applied(rules, todo) == map[];
    while todo != {}
      invariant todo <= rules.Keys
      invariant Assigned(unwound[..], Applied(rules, todo), regs, cfa.value, t)
      invariant !SomeFails(Applied(rules, todo), regs, cfa.value, t)
      decreases |todo|
    {
      Inhabited(todo);
      var id :| id in todo;
      ghost var sofar := unwound[..];
      var ok := ApplyRule(id, rules[id], regs, unwound, cfa.value, t);
      if !ok {
        return None, unwound;
      }
      ApplyOne(sofar, unwound[..], rules, todo, id, regs, cfa.value, t);
      AppliedFails(rules, todo, id, regs, cfa.value, t);
      todo := todo - {id};
    }
    assert Applied(rules, {}) == rules;
    r := cfa;
  }

  /** The result does not depend on the order: the assignment determines every byte. */
  lemma OrderIrrelevant(a: seq<Byte>, b: seq<Byte>, rules: Rules, regs: seq<Byte>, cfa: U64, t: Tracing)
    requires |regs| == GPR_BYTES
    requires Assigned(a, rules, regs, cfa, t) && Assigned(b, rules, regs, cfa, t)
    ensures a == b
  {
    forall k | 0 <= k < GPR_BYTES
      ensures a[k] == b[k]
    {
      if id: U64 :| Stores(id, k) {
        GetDetermines(a, b, GprOffset(id).value, k);
      }
    }
  }

  lemma GetDetermines(a: seq<Byte>, b: seq<Byte>, off: nat, k: nat)
    requires off <= k < off + 8 <= |a| && |a| == |b| && Get(a, off) == Get(b, off)
    ensures a[k] == b[k]
  {
    ToLEFromLE(a[off..off + 8]);
    ToLEFromLE(b[off..off + 8]);
    assert a[off..off + 8][k - off] == b[off..off + 8][k - off];
  }

  /** Two registers saved in each other are exchanged: both rules read the old values. */
  lemma Swap(after: seq<Byte>, a: U64, b: U64, regs: seq<Byte>, cfa: U64, t: Tracing)
    requires |regs| == GPR_BYTES && GprOffset(a).Some? && GprOffset(b).Some?
    requires Assigned(after, map[a := InRegister(b), b := InRegister(a)], regs, cfa, t)
    ensures Get(after, GprOffset(a).value) == Get(regs, GprOffset(b).value)
    ensures Get(after, GprOffset(b).value) == Get(regs, GprOffset(a).value)
  {
  }
}
