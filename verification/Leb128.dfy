/**
 LEB128 as in section 7.6 of DWARF 4, and the debugger's two readers for it.
 */
module Leb128 {
  import opened Bytes
  import opened Tracee

  /** The outcome of reading at a position: a value and the position after it, or a failure. */
  datatype Read<+T> = Got(value: T, next: nat) | Bad

  /** The unsigned value of a run of LEB128 bytes: seven bits each, lowest first. */
  function Groups(s: seq<Byte>): nat {
    if s == [] then 0 else s[0] % 128 + 128 * Groups(s[1..])
  }

  /** The signed value: as Groups, minus 2^(7n) when bit 6 of the last byte is set. */
  function SignedGroups(s: seq<Byte>): int
    requires s != []
  {
    Groups(s) - if s[|s| - 1] % 128 >= 64 then Pow2(7 * |s|) else 0
  }

  /** The LEB128 run that starts at pos: up to and including the first byte below 128. */
  function RunAt(data: seq<Byte>, pos: nat): (r: Option<seq<Byte>>)
    requires pos <= |data|
    ensures r.Some? ==> r.value != [] && pos + |r.value| <= |data| && r.value == data[pos..pos + |r.value|]
    decreases |data| - pos
  {
    if pos == |data| then None
    else if data[pos] < 128 then Some([data[pos]])
    else
      match RunAt(data, pos + 1)
      case None => None
      case Some(rest) => Some([data[pos]] + rest)
  }

  lemma {:induction false} GroupsAppend(s: seq<Byte>, b: Byte)
    ensures Groups(s + [b]) == Groups(s) + (b % 128) * Pow2(7 * |s|)
  {
    if s == [] {
      assert s + [b] == [b];
    } else {
      assert (s + [b])[1..] == s[1..] + [b];
      GroupsAppend(s[1..], b);
      var p := Pow2(7 * |s[1..]|);
      assert Pow2(7 * |s|) == 128 * p by {
        Pow2Values();
        Pow2Add(7, 7 * |s[1..]|);
      }
      MulSwap(128, b % 128, p);
    }
  }

  lemma MulSwap(a: int, b: int, c: int)
    ensures a * (b * c) == b * (a * c)
  {
  }

  lemma {:induction false} GroupsBound(s: seq<Byte>)
    ensures Groups(s) < Pow2(7 * |s|)
  {
    if s != [] {
      GroupsBound(s[1..]);
      Pow2Values();
      Pow2Add(7, 7 * |s[1..]|);
    }
  }

  /** readSLEB128 as a function of the bytes: the signed value of the run, modulo 2^64. */
  function SlebAt(data: seq<Byte>, pos: nat): (r: Read<I64>)
    requires pos <= |data|
    ensures r.Got? ==> pos < r.next <= |data|
  {
    match RunAt(data, pos)
    case None => Bad
    case Some(run) => Got(Signed64(Wrap64(SignedGroups(run))), pos + |run|)
  }

  /** readULEB128 as a function of the bytes: the value of the run if it fits a uint64. */
  function UlebAt(data: seq<Byte>, pos: nat): (r: Read<U64>)
    requires pos <= |data|
    ensures r.Got? ==> pos < r.next <= |data|
  {
    match RunAt(data, pos)
    case None => Bad
    case Some(run) => if |run| <= 10 && Groups(run) < TWO64 then Got(Groups(run), pos + |run|) else Bad
  }

  lemma {:induction false} RunAtStep(data: seq<Byte>, from: nat, pos: nat)
    requires from <= pos <= |data|
    requires forall k :: from <= k < pos ==> data[k] >= 128
    ensures RunAt(data, from).Some? <==> RunAt(data, pos).Some?
    ensures RunAt(data, from).Some? ==> RunAt(data, from).value == data[from..pos] + RunAt(data, pos).value
    decreases pos - from
  {
    if from < pos {
      RunAtStep(data, from + 1, pos);
      if RunAt(data, pos).Some? {
        CutFirst(data, from, pos, RunAt(data, pos).value);
      }
    } else if RunAt(data, pos).Some? {
      assert data[from..pos] + RunAt(data, pos).value == RunAt(data, pos).value;
    }
  }

  lemma CutFirst(data: seq<Byte>, from: nat, pos: nat, rest: seq<Byte>)
    requires from < pos <= |data|
    ensures data[from..pos] + rest == [data[from]] + (data[from + 1..pos] + rest)
  {
  }

  lemma Pow2Multiple(shift: nat)
    requires shift >= 64
    ensures Pow2(shift) % TWO64 == 0
  {
    Pow2Values();
    Pow2Add(64, shift - 64);
    MultipleModZero(Pow2(shift - 64));
  }

  lemma MultipleModZero(k: int)
    ensures (TWO64 * k) % TWO64 == 0
  {
  }

  // ---------------------------------------------------------------- encoders

  /** The canonical unsigned encoding. */
  function EncodeUleb(v: nat): (s: seq<Byte>)
    ensures s != []
  {
    if v < 128 then [v] else [v % 128 + 128] + EncodeUleb(v / 128)
  }

  /** The canonical signed encoding: the shortest run whose last byte carries the sign in bit 6. */
  function EncodeSleb(v: int): (s: seq<Byte>)
    ensures s != []
    decreases if v >= 0 then v else -v
  {
    if -64 <= v < 64 then [v % 128] else [v % 128 + 128] + EncodeSleb(v / 128)
  }

  lemma {:induction false} UlebRun(v: nat, rest: seq<Byte>)
    ensures RunAt(EncodeUleb(v) + rest, 0) == Some(EncodeUleb(v))
    ensures Groups(EncodeUleb(v)) == v
  {
    var data := EncodeUleb(v) + rest;
    if v >= 128 {
      UlebRun(v / 128, rest);
      RunAtShift([v % 128 + 128], EncodeUleb(v / 128) + rest);
      assert data == [v % 128 + 128] + (EncodeUleb(v / 128) + rest);
      assert EncodeUleb(v)[1..] == EncodeUleb(v / 128);
    }
  }

  lemma {:induction false} SlebRun(v: int, rest: seq<Byte>)
    ensures RunAt(EncodeSleb(v) + rest, 0) == Some(EncodeSleb(v))
    decreases if v >= 0 then v else -v
  {
    if v < -64 || 64 <= v {
      SlebRun(v / 128, rest);
      RunAtShift([v % 128 + 128], EncodeSleb(v / 128) + rest);
      assert EncodeSleb(v) + rest == [v % 128 + 128] + (EncodeSleb(v / 128) + rest);
    }
  }

  /** A further group in front multiplies the signed value by 128. */
  lemma SignedGroupsPush(b: Byte, s: seq<Byte>)
    requires s != []
    ensures SignedGroups([b] + s) == b % 128 + 128 * SignedGroups(s)
  {
    var t := [b] + s;
    assert t[1..] == s && t[|t| - 1] == s[|s| - 1];
    assert Pow2(7 * |t|) == 128 * Pow2(7 * |s|) by {
      Pow2Values();
      Pow2Add(7, 7 * |s|);
    }
  }

  lemma SlebSingle(v: int)
    requires -64 <= v < 64
    ensures SignedGroups([v % 128]) == v
  {
    var s := [v % 128];
    assert s[1..] == [] && Groups(s) == v % 128 by { assert Groups(s[1..]) == 0; }
    assert Pow2(7 * |s|) == 128 by { Pow2Values(); }
    assert v % 128 == if v >= 0 then v else v + 128;
  }

  lemma {:induction false} SlebValue(v: int)
    ensures SignedGroups(EncodeSleb(v)) == v
    decreases if v >= 0 then v else -v
  {
    if -64 <= v < 64 {
      SlebSingle(v);
    } else {
      var q, d := v / 128, v % 128;
      SlebValue(q);
      SignedGroupsPush(d + 128, EncodeSleb(q));
      assert (d + 128) % 128 == d && v == d + 128 * q;
    }
  }

  /** A run further in is the run of what follows. */
  lemma {:induction false} RunAtShift(prefix: seq<Byte>, data: seq<Byte>)
    ensures RunAt(prefix + data, |prefix|) == RunAt(data, 0)
  {
    RunAtShiftBy(prefix, data, 0);
  }

  lemma {:induction false} RunAtShiftBy(prefix: seq<Byte>, data: seq<Byte>, pos: nat)
    requires pos <= |data|
    ensures RunAt(prefix + data, |prefix| + pos) == RunAt(data, pos)
    decreases |data| - pos
  {
    if pos < |data| {
      assert (prefix + data)[|prefix| + pos] == data[pos];
      RunAtShiftBy(prefix, data, pos + 1);
    }
  }

  lemma {:induction false} UlebLength(v: nat, n: nat)
    requires v < Pow2(7 * n) && n > 0
    ensures |EncodeUleb(v)| <= n
  {
    if v >= 128 {
      Pow2Values();
      Pow2Add(7, 7 * (n - 1));
      UlebLength(v / 128, n - 1);
    }
  }

  /** Reading the canonical encoding of any uint64, whatever follows it, gives the value back. */
  lemma UlebRoundTrip(prefix: seq<Byte>, v: U64, rest: seq<Byte>)
    ensures UlebAt(prefix + EncodeUleb(v) + rest, |prefix|) == Got(v, |prefix| + |EncodeUleb(v)|)
  {
    UlebRun(v, rest);
    RunInside(prefix, EncodeUleb(v), rest);
    UlebShort(v);
  }

  lemma UlebShort(v: U64)
    ensures |EncodeUleb(v)| <= 10
  {
    Pow2Values();
    Pow2Monotone(64, 70);
    UlebLength(v, 10);
  }

  /** A run found at the start of some bytes is found there behind a prefix. */
  lemma RunInside(prefix: seq<Byte>, run: seq<Byte>, rest: seq<Byte>)
    requires RunAt(run + rest, 0) == Some(run)
    ensures RunAt(prefix + run + rest, |prefix|) == Some(run)
  {
    RunAtShift(prefix, run + rest);
    assert prefix + run + rest == prefix + (run + rest);
  }

  lemma SignedWrap(v: I64)
    ensures Signed64(Wrap64(v)) == v
  {
  }

  /** Reading the canonical encoding of any int64, whatever follows it, gives the value back. */
  lemma SlebRoundTrip(prefix: seq<Byte>, v: I64, rest: seq<Byte>)
    ensures SlebAt(prefix + EncodeSleb(v) + rest, |prefix|) == Got(v, |prefix| + |EncodeSleb(v)|)
  {
    SlebRun(v, rest);
    SlebValue(v);
    RunInside(prefix, EncodeSleb(v), rest);
    SignedWrap(v);
  }
}
