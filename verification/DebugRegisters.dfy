/**
 The x86-64 debug registers of one thread: four address registers DR0-DR3 and
 the control register DR7, whose bit 2i enables slot i and whose four bits at
 16 + 4i hold the condition and the length of slot i.
 */
module DebugRegisters {
  import opened Bytes
  import opened Bits
  import opened Tracee

  datatype Mode = Execute | Write | ReadWrite

  type Addresses = s: seq<U64> | |s| == 4 witness [0, 0, 0, 0]

  datatype DebugRegs = DebugRegs(addr: Addresses, control: U64)

  /** What one slot watches for. */
  datatype Watch = Watch(address: U64, mode: Mode, size: int)

  predicate SupportedSize(size: int) {
    size == 1 || size == 2 || size == 4 || size == 8
  }

  function EncodeMode(mode: Mode): int {
    match mode
    case Execute => 0
    case Write => 1
    case ReadWrite => 3
  }

  function EncodeSize(size: int): (r: Option<int>)
    ensures r.Some? <==> SupportedSize(size)
  {
    if size == 1 then Some(0)
    else if size == 2 then Some(1)
    else if size == 4 then Some(3)
    else if size == 8 then Some(2)
    else None
  }

  /** The four condition bits: mode | size << 2. */
  function EncodeWatch(mode: Mode, size: int): (bits: int)
    requires SupportedSize(size)
    ensures 0 <= bits < 16
  {
    EncodeMode(mode) + 4 * EncodeSize(size).value
  }

  /** The four bits determine the mode and the size that were encoded. */
  lemma EncodeWatchInjective(m: Mode, s: int, m': Mode, s': int)
    requires SupportedSize(s) && SupportedSize(s')
    requires EncodeWatch(m, s) == EncodeWatch(m', s')
    ensures m == m' && s == s'
  {
    assert EncodeWatch(m, s) % 4 == EncodeMode(m) && EncodeWatch(m', s') % 4 == EncodeMode(m');
  }

  predicate Enabled(control: U64, i: nat) {
    Bit(control, 2 * i) == 1
  }

  /** (control >> (16 + 4i)) & 0xF. */
  function Field(control: U64, i: nat): int {
    Bit(control, 16 + 4 * i) + 2 * Bit(control, 17 + 4 * i) + 4 * Bit(control, 18 + 4 * i) + 8 * Bit(control, 19 + 4 * i)
  }

  /** Slot i is in use and watches exactly w. */
  predicate Holds(d: DebugRegs, i: int, w: Watch) {
    && 0 <= i < 4 && SupportedSize(w.size)
    && Enabled(d.control, i)
    && d.addr[i] == w.address
    && Field(d.control, i) == EncodeWatch(w.mode, w.size)
  }

  /** A slot watches at most one thing. */
  lemma HoldsUnique(d: DebugRegs, i: int, w: Watch, w': Watch)
    requires Holds(d, i, w) && Holds(d, i, w')
    ensures w == w'
  {
    EncodeWatchInjective(w.mode, w.size, w'.mode, w'.size);
  }

  /** What a program does at an address. */
  datatype Access = Fetching | Storing | Loading

  /**
   The processor's reading of DR7 (Intel SDM volume 3, section 18.2.4): the low two bits of
   a slot's field are the kind of access that traps, the high two the length of the area,
   which is aligned to that length.
   */
  predicate Fires(d: DebugRegs, i: int, access: Access, at: U64) {
    && 0 <= i < 4 && Enabled(d.control, i)
    && var kind, length := Field(d.control, i) % 4, [1, 2, 8, 4][Field(d.control, i) / 4];
       var base := d.addr[i] - d.addr[i] % length;
       && base <= at < base + length
       && match access
          case Fetching => kind == 0
          case Storing => kind == 1 || kind == 3
          case Loading => kind == 3
  }

  /** The accesses that a mode is meant to catch. */
  predicate Catches(mode: Mode, access: Access) {
    match mode
    case Execute => access == Fetching
    case Write => access == Storing
    case ReadWrite => access != Fetching
  }

  /** A slot that holds an aligned watch traps exactly the accesses of its mode to its bytes. */
  lemma HoldsFires(d: DebugRegs, i: int, w: Watch, access: Access, at: U64)
    requires Holds(d, i, w) && w.address % w.size == 0
    ensures Fires(d, i, access, at) <==> w.address <= at < w.address + w.size && Catches(w.mode, access)
  {
    assert EncodeWatch(w.mode, w.size) % 4 == EncodeMode(w.mode);
    assert EncodeWatch(w.mode, w.size) / 4 == EncodeSize(w.size).value;
    assert [1, 2, 8, 4][EncodeSize(w.size).value] == w.size;
  }

  /** The lowest slot whose enable bit is clear. */
  method FindFree(control: U64) returns (r: Option<int>)
    ensures r.None? ==> forall i :: 0 <= i < 4 ==> Enabled(control, i)
    ensures r.Some? ==> 0 <= r.value < 4 && !Enabled(control, r.value)
    ensures r.Some? ==> forall i :: 0 <= i < r.value ==> Enabled(control, i)
  {
    for i := 0 to 4
      invariant forall j :: 0 <= j < i ==> Enabled(control, j)
    {
      if Bit(control, 2 * i) == 0 {
        return Some(i);
      }
    }
    r := None;
  }

  /** control with the four bits from n up replaced by those of v. */
  function SetField(control: nat, n: nat, v: int): nat
    requires 0 <= v < 16
  {
    SetBit(SetBit(SetBit(SetBit(control, n, Bit(v, 0)), n + 1, Bit(v, 1)), n + 2, Bit(v, 2)), n + 3, Bit(v, 3))
  }

  lemma SetFieldBits(control: nat, n: nat, v: int, m: nat)
    requires 0 <= v < 16
    ensures Bit(SetField(control, n, v), m) == if n <= m < n + 4 then Bit(v, m - n) else Bit(control, m)
  {
    var x1 := SetBit(control, n, Bit(v, 0));
    var x2 := SetBit(x1, n + 1, Bit(v, 1));
    var x3 := SetBit(x2, n + 2, Bit(v, 2));
    BitSetBit(control, n, Bit(v, 0), m);
    BitSetBit(x1, n + 1, Bit(v, 1), m);
    BitSetBit(x2, n + 2, Bit(v, 2), m);
    BitSetBit(x3, n + 3, Bit(v, 3), m);
  }

  lemma SetFieldBound(control: U64, n: nat, v: int)
    requires 0 <= v < 16 && n + 4 <= 64
    ensures SetField(control, n, v) < TWO64
  {
    Pow2Values();
    var x1 := SetBit(control, n, Bit(v, 0));
    var x2 := SetBit(x1, n + 1, Bit(v, 1));
    var x3 := SetBit(x2, n + 2, Bit(v, 2));
    SetBitBound(control, n, Bit(v, 0), 64);
    SetBitBound(x1, n + 1, Bit(v, 1), 64);
    SetBitBound(x2, n + 2, Bit(v, 2), 64);
    SetBitBound(x3, n + 3, Bit(v, 3), 64);
  }

  /** DR7 with slot i's enable bit and condition bits replaced. */
  function SetSlot(control: U64, i: nat, on: BitValue, bits: int): (r: U64)
    requires i < 4 && 0 <= bits < 16
  {
    SetFieldBound(control, 16 + 4 * i, bits);
    Pow2Values();
    SetBitBound(SetField(control, 16 + 4 * i, bits), 2 * i, on, 64);
    SetBit(SetField(control, 16 + 4 * i, bits), 2 * i, on)
  }

  /** SetSlot touches one enable bit and one field; every other bit of DR7 stays. */
  lemma SetSlotBits(control: U64, i: nat, on: BitValue, bits: int, m: nat)
    requires i < 4 && 0 <= bits < 16
    ensures Bit(SetSlot(control, i, on, bits), m) ==
            if m == 2 * i then on
            else if 16 + 4 * i <= m < 20 + 4 * i then Bit(bits, m - 16 - 4 * i)
            else Bit(control, m)
  {
    SetFieldBits(control, 16 + 4 * i, bits, m);
    BitSetBit(SetField(control, 16 + 4 * i, bits), 2 * i, on, m);
  }

  lemma FourBits(v: int)
    requires 0 <= v < 16
    ensures v == Bit(v, 0) + 2 * Bit(v, 1) + 4 * Bit(v, 2) + 8 * Bit(v, 3)
  {
    assert Bit(v, 1) == v / 2 % 2;
    assert Bit(v, 2) == Bit(v / 2, 1) == v / 2 / 2 % 2;
    assert Bit(v, 3) == Bit(v / 2, 2) == Bit(v / 2 / 2, 1) == v / 2 / 2 / 2 % 2;
  }

  /** What slot j looks like after slot i was replaced. */
  lemma SetSlotFields(control: U64, i: nat, on: BitValue, bits: int, j: nat)
    requires i < 4 && j < 4 && 0 <= bits < 16
    ensures Enabled(SetSlot(control, i, on, bits), j) == if i == j then on == 1 else Enabled(control, j)
    ensures Field(SetSlot(control, i, on, bits), j) == if i == j then bits else Field(control, j)
  {
    SetSlotBits(control, i, on, bits, 2 * j);
    SetSlotBits(control, i, on, bits, 16 + 4 * j);
    SetSlotBits(control, i, on, bits, 17 + 4 * j);
    SetSlotBits(control, i, on, bits, 18 + 4 * j);
    SetSlotBits(control, i, on, bits, 19 + 4 * j);
    FourBits(bits);
  }

  /** The registers after slot i was programmed to watch w. */
  function Arm(d: DebugRegs, i: nat, w: Watch): DebugRegs
    requires i < 4 && SupportedSize(w.size)
  {
    DebugRegs(d.addr[i := w.address], SetSlot(d.control, i, 1, EncodeWatch(w.mode, w.size)))
  }

  /** The registers after slot i was cleared. */
  function Disarm(d: DebugRegs, i: nat): DebugRegs
    requires i < 4
  {
    DebugRegs(d.addr[i := 0], SetSlot(d.control, i, 0, 0))
  }

  /**
   Programming a slot: the slot then watches w, every other slot watches what
   it watched, and no other slot changes between free and taken.
   */
  lemma ArmHolds(d: DebugRegs, i: nat, w: Watch, j: nat, v: Watch)
    requires i < 4 && SupportedSize(w.size) && j < 4
    ensures Holds(Arm(d, i, w), i, w)
    ensures j != i ==> Holds(Arm(d, i, w), j, v) == Holds(d, j, v)
    ensures j != i ==> Enabled(Arm(d, i, w).control, j) == Enabled(d.control, j)
  {
    SetSlotFields(d.control, i, 1, EncodeWatch(w.mode, w.size), i);
    SetSlotFields(d.control, i, 1, EncodeWatch(w.mode, w.size), j);
  }

  /** Clearing a slot frees it and leaves what every other slot watches alone. */
  lemma DisarmHolds(d: DebugRegs, i: nat, j: nat, v: Watch)
    requires i < 4 && j < 4
    ensures !Enabled(Disarm(d, i).control, i)
    ensures j != i ==> Holds(Disarm(d, i), j, v) == Holds(d, j, v)
    ensures j != i ==> Enabled(Disarm(d, i).control, j) == Enabled(d.control, j)
  {
    SetSlotFields(d.control, i, 0, 0, i);
    SetSlotFields(d.control, i, 0, 0, j);
  }

  lemma ResetBit(control: U64, i: nat, bits: int, m: nat)
    requires i < 4 && 0 <= bits < 16 && !Enabled(control, i) && Field(control, i) == 0
    ensures Bit(SetSlot(SetSlot(control, i, 1, bits), i, 0, 0), m) == Bit(control, m)
  {
    SetSlotBits(control, i, 1, bits, m);
    SetSlotBits(SetSlot(control, i, 1, bits), i, 0, 0, m);
    if 16 + 4 * i <= m < 20 + 4 * i {
      BitOfZero(m - 16 - 4 * i);
      assert m == 16 + 4 * i || m == 17 + 4 * i || m == 18 + 4 * i || m == 19 + 4 * i;
    }
  }

  lemma ResetControl(control: U64, i: nat, bits: int)
    requires i < 4 && 0 <= bits < 16 && !Enabled(control, i) && Field(control, i) == 0
    ensures SetSlot(SetSlot(control, i, 1, bits), i, 0, 0) == control
  {
    forall m | 0 <= m < 64
      ensures Bit(SetSlot(SetSlot(control, i, 1, bits), i, 0, 0), m) == Bit(control, m)
    {
      ResetBit(control, i, bits, m);
    }
    Pow2Values();
    BitsDetermine(SetSlot(SetSlot(control, i, 1, bits), i, 0, 0), control, 64);
  }

  /** Clearing what was just programmed restores the registers exactly when the slot was clean before. */
  lemma DisarmArm(d: DebugRegs, i: nat, w: Watch)
    requires i < 4 && SupportedSize(w.size) && !Enabled(d.control, i)
    ensures Disarm(Arm(d, i, w), i) == d <==> d.addr[i] == 0 && Field(d.control, i) == 0
  {
    var bits := EncodeWatch(w.mode, w.size);
    SetSlotFields(SetSlot(d.control, i, 1, bits), i, 0, 0, i);
    if Field(d.control, i) == 0 {
      ResetControl(d.control, i, bits);
    }
    assert d.addr[i] == 0 ==> d.addr[i := w.address][i := 0] == d.addr;
  }

  lemma FromBits(a: BitValue, b: BitValue, c: BitValue, d: BitValue)
    ensures
      var v := a + 2 * b + 4 * c + 8 * d;
      0 <= v < 16 && Bit(v, 0) == a && Bit(v, 1) == b && Bit(v, 2) == c && Bit(v, 3) == d
  {
    var v := a + 2 * b + 4 * c + 8 * d;
    assert v / 2 == b + 2 * c + 4 * d && v / 2 / 2 == c + 2 * d && v / 2 / 2 / 2 == d;
    assert Bit(v, 1) == Bit(v / 2, 0) && Bit(v, 2) == Bit(v / 2, 1) == Bit(v / 2 / 2, 0);
    assert Bit(v, 3) == Bit(v / 2, 2) == Bit(v / 2 / 2, 1) == Bit(v / 2 / 2 / 2, 0);
  }

  /** The bits of a field are those of DR7. */
  lemma FieldBits(control: U64, i: nat, k: nat)
    requires i < 4 && k < 4
    ensures 0 <= Field(control, i) < 16 && Bit(Field(control, i), k) == Bit(control, 16 + 4 * i + k)
  {
    FromBits(Bit(control, 16 + 4 * i), Bit(control, 17 + 4 * i), Bit(control, 18 + 4 * i), Bit(control, 19 + 4 * i));
    assert k == 0 || k == 1 || k == 2 || k == 3;
  }

  /** Bits of a field that already holds them, set again after being cleared. */
  lemma SetAgainBit(control: U64, i: nat, m: nat)
    requires i < 4 && Enabled(control, i) && 0 <= Field(control, i) < 16
    ensures Bit(SetSlot(SetSlot(control, i, 0, 0), i, 1, Field(control, i)), m) == Bit(control, m)
  {
    var bits := Field(control, i);
    SetSlotBits(control, i, 0, 0, m);
    SetSlotBits(SetSlot(control, i, 0, 0), i, 1, bits, m);
    if 16 + 4 * i <= m < 20 + 4 * i {
      FieldBits(control, i, m - 16 - 4 * i);
    }
  }

  lemma SetAgain(control: U64, i: nat)
    requires i < 4 && Enabled(control, i) && 0 <= Field(control, i) < 16
    ensures SetSlot(SetSlot(control, i, 0, 0), i, 1, Field(control, i)) == control
  {
    var again := SetSlot(SetSlot(control, i, 0, 0), i, 1, Field(control, i));
    forall m | 0 <= m < 64
      ensures Bit(again, m) == Bit(control, m)
    {
      SetAgainBit(control, i, m);
    }
    Pow2Values();
    BitsDetermine(again, control, 64);
  }

  /** Programming again what was just cleared restores the registers. */
  lemma ArmDisarm(d: DebugRegs, i: nat, w: Watch)
    requires i < 4 && SupportedSize(w.size) && Holds(d, i, w)
    ensures Arm(Disarm(d, i), i, w) == d
  {
    SetAgain(d.control, i);
    assert d.addr[i := 0][i := w.address] == d.addr;
  }

  /** The lowest free slot. */
  ghost predicate IsLowestFree(d: DebugRegs, index: nat) {
    !Enabled(d.control, index) && forall i :: 0 <= i < index ==> Enabled(d.control, i)
  }

  /**
   Clearing slot i and programming a watch again, in the lowest free slot, leaves the
   registers as they were if and only if slot i watched it and every lower slot was taken.
   */
  lemma RetakeSame(d: DebugRegs, i: nat, w: Watch, j: nat)
    requires i < 4 && j < 4 && SupportedSize(w.size) && IsLowestFree(Disarm(d, i), j)
    ensures Arm(Disarm(d, i), j, w) == d <==> Holds(d, i, w) && forall k :: 0 <= k < i ==> Enabled(d.control, k)
    ensures Arm(Disarm(d, i), j, w) == d ==> j == i
  {
    forall k | 0 <= k < 4
      ensures Enabled(Disarm(d, i).control, k) <==> k != i && Enabled(d.control, k)
    {
      DisarmHolds(d, i, k, w);
    }
    ArmHolds(Disarm(d, i), j, w, j, w);
    if j == i && Holds(d, i, w) {
      ArmDisarm(d, i, w);
    }
  }

  /** What setHardwareStoppoint leaves in a thread when it takes DR7 from `cache` and the slot is i. */
  function ArmBy(d: DebugRegs, cache: DebugRegs, i: nat, w: Watch): DebugRegs
    requires i < 4 && SupportedSize(w.size)
  {
    DebugRegs(d.addr[i := w.address], SetSlot(cache.control, i, 1, EncodeWatch(w.mode, w.size)))
  }

  /** Slot 1 alone is taken, and watches w. */
  predicate OnlySecond(d: DebugRegs, w: Watch) {
    && Holds(d, 1, w)
    && !Enabled(d.control, 0) && !Enabled(d.control, 2) && !Enabled(d.control, 3)
  }

  /** Clearing the one watch, in slot 1, and programming it again moves it to slot 0. */
  lemma RetakenLower(d: DebugRegs, w: Watch)
    requires OnlySecond(d, w)
    ensures IsLowestFree(Disarm(d, 1), 0)
    ensures
      var after := Arm(Disarm(d, 1), 0, w);
      after != d && Holds(after, 0, w) && after.addr[1] == 0
  {
    DisarmHolds(d, 1, 0, w);
    RetakeSame(d, 1, w, 0);
    ArmHolds(Disarm(d, 1), 0, w, 0, w);
  }

  /**
   A cache that was rolled back loses a stoppoint: with the thread's registers `now` as
   RetakenLower says and `cache` what they were, the next stoppoint v overwrites slot 0.
   No slot watches w any more, and slot 1, on again, watches address 0.
   */
  lemma RollbackLosesStoppoint(cache: DebugRegs, now: DebugRegs, w: Watch, v: Watch)
    requires OnlySecond(cache, w) && w.address != 0 && SupportedSize(v.size) && v != w
    requires now.addr[1] == 0
    ensures IsLowestFree(cache, 0)
    ensures
      var next := ArmBy(now, cache, 0, v);
      (forall i :: 0 <= i < 4 ==> !Holds(next, i, w)) && Holds(next, 0, v) && Holds(next, 1, w.(address := 0))
  {
    var next := ArmBy(now, cache, 0, v);
    var bits := EncodeWatch(v.mode, v.size);
    SetSlotFields(cache.control, 0, 1, bits, 0);
    SetSlotFields(cache.control, 0, 1, bits, 1);
    SetSlotFields(cache.control, 0, 1, bits, 2);
    SetSlotFields(cache.control, 0, 1, bits, 3);
    if Holds(next, 0, w) {
      HoldsUnique(next, 0, v, w);
    }
    forall i | 0 <= i < 4
      ensures !Holds(next, i, w)
    {
      assert i == 0 || i == 1 || i == 2 || i == 3;
    }
  }
}
