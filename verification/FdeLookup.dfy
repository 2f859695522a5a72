/**
 CallFrameInformation: parsing CIEs and FDEs with a CIE cache, and finding the
 FDE of an address by binary search in the table of .eh_frame_hdr.
 */
module FdeLookup {
  import opened Bytes
  import opened Tracee
  import opened Leb128
  import opened CfiReading
  import opened CallFrame
  import opened FrameEntries

  // ---------------------------------------------------------------- parsing

  lemma {:induction false} StringStep(body: seq<Byte>, start: nat, pos: nat)
    requires start <= pos <= |body| && forall k :: start <= k < pos ==> body[k] != 0
    ensures StringAt(body, start) ==
            match StringAt(body, pos) case Bad => Bad case Got(s, next) => Got(body[start..pos] + s, next)
    decreases pos - start
  {
    if start < pos {
      StringStep(body, start + 1, pos);
      match StringAt(body, pos)
      case Bad =>
      case Got(s, _) => assert body[start..pos] + s == [body[start]] + (body[start + 1..pos] + s);
    } else {
      match StringAt(body, pos)
      case Bad =>
      case Got(s, _) => assert body[start..pos] + s == s;
    }
  }

  method ReadU8(r: Reader) returns (b: Read<Byte>)
    requires r.Valid()
    modifies r
    ensures r.Moved(b) && b == if old(r.pos) == |r.data| then Bad else Got(r.data[old(r.pos)], old(r.pos) + 1)
  {
    var v := r.ReadFixed(1);
    if v.Bad? {
      return Bad;
    }
    OneByte(r.data, old(r.pos));
    b := Got(v.value, v.next);
  }

  method ReadString(r: Reader) returns (s: Read<seq<Byte>>)
    requires r.Valid()
    modifies r
    ensures s == StringAt(r.data, old(r.pos)) && r.Moved(s)
  {
    ghost var start := r.pos;
    var sofar: seq<Byte> := [];
    while true
      invariant start <= r.pos <= |r.data| && sofar == r.data[start..r.pos]
      invariant forall k :: start <= k < r.pos ==> r.data[k] != 0
      decreases |r.data| - r.pos
    {
      ghost var here := r.pos;
      StringStep(r.data, start, here);
      var b := ReadU8(r);
      if b.Bad? {
        return Bad;
      }
      if b.value == 0 {
        assert sofar + [] == sofar;
        return Got(sofar, b.next);
      }
      sofar := sofar + [b.value];
    }
  }

  method ReadPreamble(r: Reader) returns (p: Read<Preamble>)
    requires r.Valid() && r.pos == 0
    modifies r
    ensures p == PreambleAt(r.data) && r.Moved(p)
  {
    var id := r.ReadFixed(4);
    if id.Bad? || id.value != 0 {
      return Bad;
    }
    var version := ReadU8(r);
    if version.Bad? || (version.value != 1 && version.value != 3) {
      return Bad;
    }
    var aug := ReadString(r);
    if aug.Bad? {
      return Bad;
    }
    p := Got(Preamble(version.value, aug.value), aug.next);
  }

  method ReadReturnReg(r: Reader, version: Byte) returns (reg: Read<U64>)
    requires r.Valid()
    modifies r
    ensures reg == ReturnRegAt(r.data, old(r.pos), version) && r.Moved(reg)
  {
    if version == 1 {
      var b := ReadU8(r);
      if b.Bad? {
        return Bad;
      }
      reg := Got(b.value, b.next);
    } else {
      reg := r.ReadULEB128();
    }
  }

  method ReadFactors(r: Reader, version: Byte) returns (f: Read<Factors>)
    requires r.Valid()
    modifies r
    ensures f == FactorsAt(r.data, old(r.pos), version) && r.Moved(f)
  {
    var code := r.ReadULEB128();
    if code.Bad? {
      return Bad;
    }
    var data := r.ReadSLEB128();
    if data.Bad? {
      return Bad;
    }
    var reg := ReadReturnReg(r, version);
    if reg.Bad? {
      return Bad;
    }
    f := Got(Factors(code.value, data.value, reg.value), reg.next);
  }

  /** One character of the augmentation string; None after a failed read. */
  method ReadAugmentation(r: Reader, c: Byte, end: nat, e: Encodings) returns (next: Option<Encodings>)
    requires r.Valid() && end <= |r.data|
    modifies r
    ensures r.Valid()
    ensures forall rest: seq<Byte> ::
      AugmentationAt([c] + rest, r.data, r.baseAddr, old(r.pos), end, e) ==
      match next case None => None case Some(e') => AugmentationAt(rest, r.data, r.baseAddr, r.pos, end, e')
  {
    assert forall rest: seq<Byte> :: ([c] + rest)[1..] == rest;
    if c == CHAR_R || c == CHAR_L || c == CHAR_P {
      var b := ReadU8(r);
      if b.Bad? {
        return None;
      }
      if c == CHAR_R {
        return Some(e.(ptr := b.value));
      }
      if c == CHAR_L {
        return Some(e.(lsda := b.value));
      }
      var personality := r.ReadAddress(b.value);
      return if personality.Bad? then None else Some(e);
    }
    if c != CHAR_S {
      r.pos := end;
    }
    next := Some(e);
  }

  method ReadEncodings(r: Reader, aug: seq<Byte>) returns (e: Read<Encodings>)
    requires r.Valid()
    modifies r
    ensures e == EncodingsAt(aug, r.data, r.baseAddr, old(r.pos)) && r.Moved(e)
  {
    if aug == [] || aug[0] != CHAR_Z {
      return Got(Encodings(0, 0), r.pos);
    }
    var length := r.ReadULEB128();
    if length.Bad? || r.pos + Signed64(length.value) < 0 {
      return Bad;
    }
    var end := SkipFrom(r.data, r.pos, Signed64(length.value));
    var sofar, i := Encodings(0, 0), 1;
    ghost var all := AugmentationAt(aug[1..], r.data, r.baseAddr, r.pos, end, sofar);
    while i < |aug|
      invariant 1 <= i <= |aug| && r.Valid()
      invariant AugmentationAt(aug[i..], r.data, r.baseAddr, r.pos, end, sofar) == all
    {
      assert aug[i..] == [aug[i]] + aug[i + 1..];
      var next := ReadAugmentation(r, aug[i], end, sofar);
      if next.None? {
        return Bad;
      }
      sofar, i := next.value, i + 1;
    }
    r.pos := end;
    e := Got(sofar, end);
  }

  /** The entry's body as a reader of its own. */
  method ReadBody(sec: Section, offset: nat) returns (body: Option<Reader>)
    ensures body.Some? <==> BodyAt(sec, offset).Got?
    ensures body.Some? ==> fresh(body.value) && body.value.Valid() && body.value.pos == 0
    ensures body.Some? ==> body.value.data == BodyAt(sec, offset).value && body.value.baseAddr == BodyAddr(sec, offset)
  {
    if offset >= |sec.data| {
      return None;
    }
    var r := new Reader(sec.data[offset..], Wrap64(sec.addr + offset), 0);
    var length := r.ReadFixed(4);
    if length.Bad? || length.value == 0 || length.value == 0xffff_ffff {
      return None;
    }
    var start := r.pos;
    var bytes := r.Slice(length.value);
    if bytes.Bad? {
      return None;
    }
    var sub := new Reader(bytes.value, Wrap64(r.baseAddr + start), 0);
    body := Some(sub);
  }

  /** parseCIE, once the body has been cut out. */
  method ParseCie(r: Reader) returns (entry: Option<CieEntry>)
    requires r.Valid() && r.pos == 0
    modifies r
    ensures entry == CieOf(r.data, r.baseAddr)
  {
    var pre := ReadPreamble(r);
    if pre.Bad? {
      return None;
    }
    var f := ReadFactors(r, pre.value.version);
    if f.Bad? {
      return None;
    }
    var e := ReadEncodings(r, pre.value.aug);
    if e.Bad? {
      return None;
    }
    var hasAugmentation := pre.value.aug != [] && pre.value.aug[0] == CHAR_Z;
    entry := Some(CieEntry(Cie(f.value.code, f.value.data, e.value.ptr), |r.data|, f.value.returnReg, hasAugmentation, e.value.lsda, r.data[r.pos..]));
  }

  method ReadCiePointer(r: Reader) returns (p: Read<U64>)
    requires r.Valid() && r.pos == 0
    modifies r
    ensures p == CiePointer(r.data) && r.Moved(p)
  {
    var v := r.ReadFixed(4);
    if v.Bad? {
      return Bad;
    }
    FixedBound(r.data, 0, 4);
    Pow2Values();
    p := Got(v.value, v.next);
  }

  /** parseFDE behind the CIE pointer. */
  method ParseFdeBody(r: Reader, cie: CieEntry) returns (fde: Option<Fde>)
    requires r.Valid() && r.pos == 4
    modifies r
    ensures fde == FdeOf(r.data, r.baseAddr, cie)
  {
    var location := r.ReadAddress(cie.cie.ptrEnc);
    if location.Bad? {
      return None;
    }
    var range := r.ReadAddress(cie.cie.ptrEnc % 16);
    if range.Bad? {
      return None;
    }
    if cie.hasAugmentation {
      var length := r.ReadULEB128();
      if length.Bad? {
        return None;
      }
      var ok := r.Skip(Signed64(length.value));
      if !ok {
        return None;
      }
    }
    fde := Some(Fde(|r.data|, cie, location.value, range.value, r.data[r.pos..]));
  }

  // ---------------------------------------------------------------- the search table

  /** The parsed .eh_frame_hdr: where its table is and how its entries are encoded. */
  datatype Header = Header(sec: Section, tableOff: nat, count: U64, enc: Byte)

  function EntryOff(h: Header, i: nat): nat {
    h.tableOff + i * (EncodedPtrSize(h.enc) * 2)
  }

  /** An address at any position of the header; a position past the end fails. */
  function HeaderAddress(h: Header, off: nat): (r: Read<U64>) {
    if off > |h.sec.data| then Bad else AddressAt(h.sec.data, h.sec.addr, off, h.enc)
  }

  /** The FDE address of table entry i. */
  function EntryPointer(h: Header, i: nat): Read<U64> {
    match HeaderAddress(h, EntryOff(h, i))
    case Bad => Bad
    case Got(_, next) => HeaderAddress(h, next)
  }

  /** The FDE behind a pointer, if the pointer could be read. */
  function Follow(frames: Section, pointer: Read<U64>): Option<Fde> {
    if pointer.Bad? then None else FdeAt(frames, Minus64(pointer.value, frames.addr))
  }

  /** The FDE that entry i points to. */
  function EntryFde(h: Header, frames: Section, i: nat): Option<Fde> {
    Follow(frames, EntryPointer(h, i))
  }

  /** The initial location of table entry i. */
  function EntryLocation(h: Header, i: nat): Option<U64> {
    match HeaderAddress(h, EntryOff(h, i))
    case Bad => None
    case Got(location, _) => Some(location)
  }

  /** The table as the search sees it: per entry its location and the FDE it leads to, as far as they are there. */
  datatype Table = Table(locs: seq<Option<U64>>, fdes: seq<Option<Fde>>)

  ghost function TableOf(h: Header, frames: Section): (t: Table)
    ensures |t.locs| == |t.fdes| == h.count
    ensures forall i: nat :: i < h.count ==> t.locs[i] == EntryLocation(h, i) && t.fdes[i] == EntryFde(h, frames, i)
  {
    Table(seq(h.count, i requires 0 <= i < h.count => EntryLocation(h, i)),
          seq(h.count, i requires 0 <= i < h.count => EntryFde(h, frames, i)))
  }

  /** Entry i is above the address, or not there. */
  predicate Above(location: Option<U64>, addr: U64) {
    location.None? || location.value > addr
  }

  /** An FDE covers the address. */
  predicate Covers(fde: Option<Fde>, addr: U64) {
    fde.Some? && Contains(fde.value, addr)
  }

  /** Only the end of the table may be missing. */
  ghost predicate Truncated(t: Table) {
    forall i, j :: 0 <= i < j < |t.locs| && t.locs[j].Some? ==> t.locs[i].Some?
  }

  ghost predicate Sorted(t: Table) {
    forall i, j :: 0 <= i < j < |t.locs| && t.locs[i].Some? && t.locs[j].Some? ==> t.locs[i].value <= t.locs[j].value
  }

  /** The FDE of entry i starts at the entry's location and ends before the next entry. */
  ghost predicate EntryOk(t: Table, i: nat)
    requires i < |t.locs| == |t.fdes|
  {
    t.fdes[i].Some? ==>
      var fde := t.fdes[i].value;
      && t.locs[i] == Some(fde.location)
      && fde.location + fde.range < TWO64
      && (i + 1 < |t.locs| && t.locs[i + 1].Some? ==> fde.location + fde.range <= t.locs[i + 1].value)
  }

  /** Sorted, and in agreement with FDEs that do not overlap. */
  ghost predicate Consistent(t: Table) {
    Sorted(t) && |t.locs| == |t.fdes| && forall i :: 0 <= i < |t.locs| ==> EntryOk(t, i)
  }

  /** If an entry is there, so are all before it, for every encoding of fixed size. */
  lemma EntriesTruncated(h: Header, i: nat, j: nat)
    requires EncodedPtrSize(h.enc) != 0 && i <= j && EntryLocation(h, j).Some?
    ensures EntryLocation(h, i).Some?
  {
    var size := EncodedPtrSize(h.enc) * 2;
    assert j * size - i * size == (j - i) * size;
    AddressAdvances(h.sec.data, h.sec.addr, EntryOff(h, j), h.enc);
    AddressAdvances(h.sec.data, h.sec.addr, EntryOff(h, i), h.enc);
  }

  lemma TableTruncated(h: Header, frames: Section)
    requires EncodedPtrSize(h.enc) != 0
    ensures Truncated(TableOf(h, frames))
  {
    var t := TableOf(h, frames);
    forall i, j | 0 <= i < j < |t.locs| && t.locs[j].Some?
      ensures t.locs[i].Some?
    {
      EntriesTruncated(h, i, j);
    }
  }

  /** The search predicate is monotone, also when the table is cut short. */
  lemma AboveMonotone(t: Table, addr: U64, i: nat, j: nat)
    requires Truncated(t) && Sorted(t) && i <= j < |t.locs| && Above(t.locs[i], addr)
    ensures Above(t.locs[j], addr)
  {
  }

  /** An FDE covers only addresses up to the next entry: it is that of the last entry not above. */
  lemma CoveringIsLast(t: Table, addr: U64, i: nat, j: nat)
    requires Truncated(t) && Consistent(t) && i < j < |t.locs| && Covers(t.fdes[i], addr)
    ensures !Above(t.locs[i], addr) && Above(t.locs[j], addr)
  {
    assert EntryOk(t, i);
    AboveMonotone(t, addr, i + 1, j);
  }

  /** At most one entry of a consistent table covers an address. */
  lemma CoveringUnique(t: Table, addr: U64, i: nat, j: nat)
    requires Truncated(t) && Consistent(t) && i < |t.fdes| && j < |t.fdes|
    requires Covers(t.fdes[i], addr) && Covers(t.fdes[j], addr)
    ensures i == j
  {
    assert EntryOk(t, i) && EntryOk(t, j);
    if i < j {
      CoveringIsLast(t, addr, i, j);
    } else if j < i {
      CoveringIsLast(t, addr, j, i);
    }
  }

  /** A position where the search predicate turns true. */
  ghost predicate Turns(t: Table, addr: U64, idx: nat) {
    && idx <= |t.locs|
    && (idx > 0 ==> !Above(t.locs[idx - 1], addr))
    && (idx < |t.locs| ==> Above(t.locs[idx], addr))
  }

  /** Where the search must end up when some entry covers the address. */
  lemma CoveringIsFound(t: Table, addr: U64, i: nat, idx: nat)
    requires Truncated(t) && Consistent(t) && i < |t.fdes| && Covers(t.fdes[i], addr) && Turns(t, addr, idx)
    ensures idx == i + 1
  {
    assert EntryOk(t, i);
    if idx <= i {
      AboveMonotone(t, addr, idx, i);
    }
  }

  class CallFrameInformation {
    const frames: Section
    const header: Header
    var cieCache: map<U64, CieEntry>

    constructor (frames: Section, header: Header)
      ensures Valid() && this.frames == frames && this.header == header && cieCache == map[]
    {
      this.frames, this.header, this.cieCache := frames, header, map[];
    }

    /** Every cached CIE is what parsing at its offset gives. */
    ghost predicate Valid()
      reads this
    {
      forall offset <- cieCache :: CieAt(frames, offset) == Some(cieCache[offset])
    }

    /** getCIE: the cache never changes the answer. */
    method GetCie(offset: U64) returns (cie: Option<CieEntry>)
      requires Valid()
      modifies this
      ensures Valid() && cie == CieAt(frames, offset)
      ensures old(cieCache.Keys) <= cieCache.Keys <= old(cieCache.Keys) + {offset}
    {
      if offset in cieCache {
        return Some(cieCache[offset]);
      }
      var body := ReadBody(frames, offset);
      if body.None? {
        return None;
      }
      cie := ParseCie(body.value);
      if cie.Some? {
        cieCache := cieCache[offset := cie.value];
      }
    }

    /** The FDE whose body is in r, with the CIE it points back to. */
    method ParseFde(r: Reader, offset: U64) returns (fde: Option<Fde>)
      requires Valid() && r.Valid() && r.pos == 0
      modifies this, r
      ensures Valid() && fde == FdeWithBody(frames, offset, r.data, r.baseAddr)
    {
      var ciePtr := ReadCiePointer(r);
      if ciePtr.Bad? || ciePtr.value == 0 {
        return None;
      }
      var cie := GetCie(CieOffset(offset, ciePtr.value));
      if cie.None? {
        return None;
      }
      fde := ParseFdeBody(r, cie.value);
    }

    /** parseFDEAtOffset. */
    method ParseFdeAtOffset(offset: U64) returns (fde: Option<Fde>)
      requires Valid()
      modifies this
      ensures Valid() && fde == FdeAt(frames, offset)
    {
      var body := ReadBody(frames, offset);
      if body.None? {
        return None;
      }
      fde := ParseFde(body.value, offset);
    }

    /** The closure given to sort.Search. */
    method IsAbove(addr: U64, i: nat) returns (above: bool)
      ensures above == Above(EntryLocation(header, i), addr)
    {
      var off := EntryOff(header, i);
      if off > |header.sec.data| {
        return true;
      }
      var r := new Reader(header.sec.data, header.sec.addr, off);
      var location := r.ReadAddress(header.enc);
      above := location.Bad? || location.value > addr;
    }

    /** sort.Search: an index where the predicate turns true, found by halving. */
    method Search(addr: U64) returns (idx: nat)
      ensures Turns(TableOf(header, frames), addr, idx)
    {
      ghost var t := TableOf(header, frames);
      var i, j: nat := 0, header.count;
      while i < j
        invariant 0 <= i <= j <= |t.locs|
        invariant i > 0 ==> !Above(t.locs[i - 1], addr)
        invariant j < |t.locs| ==> Above(t.locs[j], addr)
      {
        var h := (i + j) / 2;
        var above := IsAbove(addr, h);
        if !above {
          i := h + 1;
        } else {
          j := h;
        }
      }
      idx := i;
    }

    /** The FDE pointer of table entry i, behind its location. */
    method ReadPointer(i: nat) returns (addr: Read<U64>)
      ensures addr == EntryPointer(header, i)
    {
      var off := EntryOff(header, i);
      if off > |header.sec.data| {
        return Bad;
      }
      var r := new Reader(header.sec.data, header.sec.addr, off);
      var location := r.ReadAddress(header.enc);
      if location.Bad? {
        return Bad;
      }
      addr := r.ReadAddress(header.enc);
    }

    /** The FDE behind a pointer of the table. */
    method ReadEntry(pointer: Read<U64>) returns (fde: Option<Fde>)
      requires Valid()
      modifies this
      ensures Valid() && fde == Follow(frames, pointer)
    {
      if pointer.Bad? {
        return None;
      }
      fde := ParseFdeAtOffset(Minus64(pointer.value, frames.addr));
    }

    /**
     fdeForPCBinarySearch. Whatever the table holds, an FDE it returns is that of an
     entry and covers the address. For a consistent table it returns the FDE of the
     one entry that covers the address, and fails exactly when there is none.
     */
    method FdeForPcBinarySearch(addr: U64) returns (fde: Option<Fde>)
      requires Valid() && EntryOff(header, header.count) < TWO63
      modifies this
      ensures Valid()
      ensures fde.Some? ==> Covers(fde, addr) && fde in TableOf(header, frames).fdes
      ensures EncodedPtrSize(header.enc) == 0 ==> fde.None?
      ensures EncodedPtrSize(header.enc) != 0 && Consistent(TableOf(header, frames)) ==>
                Found(TableOf(header, frames), addr, fde)
    {
      if EncodedPtrSize(header.enc) == 0 {
        return None;
      }
      var idx := Search(addr);
      fde := None;
      if idx > 0 {
        fde := ReadFde(idx - 1);
        fde := IfCovers(fde, addr);
      }
      SearchIsFinal(header, frames, addr, idx, fde);
    }

    /** The FDE of table entry i. */
    method ReadFde(i: nat) returns (fde: Option<Fde>)
      requires Valid()
      modifies this
      ensures Valid() && fde == EntryFde(header, frames, i)
    {
      var pointer := ReadPointer(i);
      fde := ReadEntry(pointer);
    }
  }

  /** The final test: an FDE that does not cover the address is no answer. */
  function IfCovers(fde: Option<Fde>, addr: U64): Option<Fde> {
    if Covers(fde, addr) then fde else None
  }

  /** The entry before the turning point is the only one that may cover the address. */
  lemma FoundIfConsistent(t: Table, addr: U64, idx: nat)
    requires Truncated(t) && Turns(t, addr, idx)
    ensures Consistent(t) ==> OnlyAt(t, addr, idx)
  {
    if Consistent(t) {
      forall i | 0 <= i < |t.fdes| && Covers(t.fdes[i], addr)
        ensures i == idx - 1
      {
        CoveringIsFound(t, addr, i, idx);
      }
    }
  }

  /** What the entry before the turning point holds settles the search. */
  lemma SearchIsFinal(h: Header, frames: Section, addr: U64, idx: nat, fde: Option<Fde>)
    requires EncodedPtrSize(h.enc) != 0
    requires Turns(TableOf(h, frames), addr, idx)
    requires fde == if idx > 0 then IfCovers(EntryFde(h, frames, idx - 1), addr) else None
    ensures fde.Some? ==> Covers(fde, addr) && fde in TableOf(h, frames).fdes
    ensures Consistent(TableOf(h, frames)) ==> Found(TableOf(h, frames), addr, fde)
  {
    var t := TableOf(h, frames);
    TableTruncated(h, frames);
    FoundIfConsistent(t, addr, idx);
    if Consistent(t) {
      FoundAt(t, addr, idx, fde);
    }
  }

  /** Only entry idx - 1 may cover the address. */
  ghost predicate OnlyAt(t: Table, addr: U64, idx: nat) {
    forall i :: 0 <= i < |t.fdes| && Covers(t.fdes[i], addr) ==> i == idx - 1
  }

  /** fde is the covering FDE of the table, None if there is none. */
  ghost predicate Found(t: Table, addr: U64, fde: Option<Fde>) {
    forall other <- t.fdes :: Covers(other, addr) ==> fde == other
  }

  lemma FoundAt(t: Table, addr: U64, idx: nat, fde: Option<Fde>)
    requires OnlyAt(t, addr, idx)
    requires 0 < idx <= |t.fdes| && Covers(t.fdes[idx - 1], addr) ==> fde == t.fdes[idx - 1]
    ensures Found(t, addr, fde)
  {
  }

  /**
   The linear scan takes the position of the CIE pointer field from the start of
   the section although it already adds the entry's offset; it finds the right CIE
   for the first entry only.
   */
  function LinearCieOffset(entryOffset: U64, ciePtr: U64): U64 {
    Wrap64(entryOffset + (entryOffset + 4) - ciePtr)
  }

  lemma LinearScanMisplaces(entryOffset: U64, ciePtr: U64)
    requires entryOffset < TWO63
    ensures LinearCieOffset(entryOffset, ciePtr) == CieOffset(entryOffset, ciePtr) <==> entryOffset == 0
  {
  }
}
