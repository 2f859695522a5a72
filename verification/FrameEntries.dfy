/**
 The entries of .eh_frame: parseCIE and parseFDEAtOffset as functions of the
 section's bytes, and as the reading methods of the debugger.
 */
module FrameEntries {
  import opened Bytes
  import opened Tracee
  import opened Leb128
  import opened CfiReading
  import opened CallFrame

  /** A section and the address it is loaded at. */
  datatype Section = Section(data: seq<Byte>, addr: U64)

  /** A parsed Common Information Entry. */
  datatype CieEntry = CieEntry(cie: Cie, length: nat, returnReg: U64, hasAugmentation: bool, lsdaEnc: Byte, code: seq<Byte>)

  /** A parsed Frame Description Entry. */
  datatype Fde = Fde(length: nat, cie: CieEntry, location: U64, range: U64, code: seq<Byte>)

  const CHAR_Z: Byte := 0x7a
  const CHAR_R: Byte := 0x52
  const CHAR_L: Byte := 0x4c
  const CHAR_P: Byte := 0x50
  const CHAR_S: Byte := 0x53

  /** The body of the entry at offset: what its length field covers. */
  function BodyAt(sec: Section, offset: nat): (r: Read<seq<Byte>>) {
    if offset >= |sec.data| then Bad
    else
      match FixedAt(sec.data[offset..], 0, 4)
      case Bad => Bad
      case Got(length, next) =>
        if length == 0 || length == 0xffff_ffff then Bad else SliceAt(sec.data[offset..], next, length)
  }

  /** The address of the body's first byte. */
  function BodyAddr(sec: Section, offset: nat): U64 {
    Wrap64(sec.addr + offset + 4)
  }

  // ---------------------------------------------------------------- CIE

  datatype Preamble = Preamble(version: Byte, aug: seq<Byte>)

  datatype Factors = Factors(code: U64, data: I64, returnReg: U64)

  datatype Encodings = Encodings(ptr: Byte, lsda: Byte)

  /** A null-terminated string. */
  function StringAt(body: seq<Byte>, pos: nat): (r: Read<seq<Byte>>)
    requires pos <= |body|
    ensures r.Got? ==> pos < r.next <= |body|
    decreases |body| - pos
  {
    if pos == |body| then Bad
    else if body[pos] == 0 then Got([], pos + 1)
    else
      match StringAt(body, pos + 1)
      case Bad => Bad
      case Got(s, next) => Got([body[pos]] + s, next)
  }

  /** CIE id, version and augmentation string. */
  function PreambleAt(body: seq<Byte>): (r: Read<Preamble>)
    ensures r.Got? ==> r.next <= |body|
  {
    if |body| < 5 || FromLE(body[0..4]) != 0 || (body[4] != 1 && body[4] != 3) then Bad
    else
      match StringAt(body, 5)
      case Bad => Bad
      case Got(aug, next) => Got(Preamble(body[4], aug), next)
  }

  /** The return address register: one byte in version 1, ULEB128 in version 3. */
  function ReturnRegAt(body: seq<Byte>, pos: nat, version: Byte): (r: Read<U64>)
    requires pos <= |body|
    ensures r.Got? ==> r.next <= |body|
  {
    if version != 1 then UlebAt(body, pos)
    else if pos == |body| then Bad
    else Got(body[pos], pos + 1)
  }

  function FactorsAt(body: seq<Byte>, pos: nat, version: Byte): (r: Read<Factors>)
    requires pos <= |body|
    ensures r.Got? ==> r.next <= |body|
  {
    match UlebAt(body, pos)
    case Bad => Bad
    case Got(code, p) =>
      match SlebAt(body, p)
      case Bad => Bad
      case Got(data, q) =>
        match ReturnRegAt(body, q, version)
        case Bad => Bad
        case Got(reg, next) => Got(Factors(code, data, reg), next)
  }

  /** What the characters after the z announce; an unknown one skips to the end of the augmentation data. */
  function AugmentationAt(aug: seq<Byte>, body: seq<Byte>, base: U64, pos: nat, end: nat, e: Encodings): Option<Encodings>
    requires pos <= |body| && end <= |body|
  {
    if aug == [] then Some(e)
    else if aug[0] == CHAR_R then
      if pos == |body| then None else AugmentationAt(aug[1..], body, base, pos + 1, end, e.(ptr := body[pos]))
    else if aug[0] == CHAR_L then
      if pos == |body| then None else AugmentationAt(aug[1..], body, base, pos + 1, end, e.(lsda := body[pos]))
    else if aug[0] == CHAR_P then
      if pos == |body| then None
      else
        match AddressAt(body, base, pos + 1, body[pos])
        case Bad => None
        case Got(_, next) => AugmentationAt(aug[1..], body, base, next, end, e)
    else if aug[0] == CHAR_S then AugmentationAt(aug[1..], body, base, pos, end, e)
    else AugmentationAt(aug[1..], body, base, end, end, e)
  }

  /** The pointer encodings, and where the instructions start. */
  function EncodingsAt(aug: seq<Byte>, body: seq<Byte>, base: U64, pos: nat): (r: Read<Encodings>)
    requires pos <= |body|
    ensures r.Got? ==> r.next <= |body|
  {
    if aug == [] || aug[0] != CHAR_Z then Got(Encodings(0, 0), pos)
    else
      match UlebAt(body, pos)
      case Bad => Bad
      case Got(length, p) =>
        if p + Signed64(length) < 0 then Bad
        else
          var end := SkipFrom(body, p, Signed64(length));
          match AugmentationAt(aug[1..], body, base, p, end, Encodings(0, 0))
          case None => Bad
          case Some(e) => Got(e, end)
  }

  /** The CIE with this body. */
  function CieOf(body: seq<Byte>, base: U64): Option<CieEntry> {
    match PreambleAt(body)
    case Bad => None
    case Got(pre, p) =>
      match FactorsAt(body, p, pre.version)
      case Bad => None
      case Got(f, q) =>
        match EncodingsAt(pre.aug, body, base, q)
        case Bad => None
        case Got(e, next) =>
          Some(CieEntry(Cie(f.code, f.data, e.ptr), |body|, f.returnReg, pre.aug != [] && pre.aug[0] == CHAR_Z, e.lsda, body[next..]))
  }

  /** The CIE at a section offset. */
  function CieAt(sec: Section, offset: nat): Option<CieEntry> {
    match BodyAt(sec, offset)
    case Bad => None
    case Got(body, _) => CieOf(body, BodyAddr(sec, offset))
  }

  // ---------------------------------------------------------------- FDE

  datatype Extent = Extent(location: U64, range: U64)

  function ExtentAt(body: seq<Byte>, base: U64, pos: nat, enc: Byte): (r: Read<Extent>)
    requires pos <= |body|
    ensures r.Got? ==> r.next <= |body|
  {
    match AddressAt(body, base, pos, enc)
    case Bad => Bad
    case Got(location, p) =>
      match AddressAt(body, base, p, enc % 16)
      case Bad => Bad
      case Got(range, q) => Got(Extent(location, range), q)
  }

  /** Where the instructions of an FDE start, behind its augmentation data. */
  function CodeStart(body: seq<Byte>, pos: nat, hasAugmentation: bool): (r: Option<nat>)
    requires pos <= |body|
    ensures r.Some? ==> r.value <= |body|
  {
    if !hasAugmentation then Some(pos)
    else
      match UlebAt(body, pos)
      case Bad => None
      case Got(length, p) => if p + Signed64(length) < 0 then None else Some(SkipFrom(body, p, Signed64(length)))
  }

  /** The FDE with this body, once its CIE is known. */
  function FdeOf(body: seq<Byte>, base: U64, cie: CieEntry): Option<Fde>
    requires |body| >= 4
  {
    match ExtentAt(body, base, 4, cie.cie.ptrEnc)
    case Bad => None
    case Got(x, p) =>
      match CodeStart(body, p, cie.hasAugmentation)
      case None => None
      case Some(q) => Some(Fde(|body|, cie, x.location, x.range, body[q..]))
  }

  /** The backward pointer of an FDE, relative to its own field; 0 marks a CIE. */
  function CiePointer(body: seq<Byte>): (p: Read<U64>) {
    if |body| < 4 then Bad
    else
      FromLEBound(body[0..4]);
      Pow2Values();
      Got(FromLE(body[0..4]), 4)
  }

  /** The offset of the CIE that the FDE at offset points back to. */
  function CieOffset(offset: U64, ciePtr: U64): U64 {
    Minus64(if offset + 4 < TWO64 then offset + 4 else offset + 4 - TWO64, ciePtr)
  }

  /** The FDE at offset whose body is known: its CIE is looked up first. */
  function FdeWithBody(sec: Section, offset: U64, body: seq<Byte>, base: U64): Option<Fde> {
    var ciePtr := CiePointer(body);
    if ciePtr.Bad? || ciePtr.value == 0 then None
    else
      match CieAt(sec, CieOffset(offset, ciePtr.value))
      case None => None
      case Some(cie) => FdeOf(body, base, cie)
  }

  /** The FDE at a section offset. */
  function FdeAt(sec: Section, offset: U64): Option<Fde> {
    match BodyAt(sec, offset)
    case Bad => None
    case Got(body, _) => FdeWithBody(sec, offset, body, BodyAddr(sec, offset))
  }

  /** ContainsPC, with its uint64 addition. */
  predicate Contains(f: Fde, addr: U64) {
    f.location <= addr < Wrap64(f.location + f.range)
  }

  /**
   An FDE covers its first address and everything up to but not including its end. The
   uint64 addition loses this exactly for addresses from the start on when the end is
   at or beyond 2^64.
   */
  lemma ContainsInterval(f: Fde, addr: U64)
    ensures (Contains(f, addr) <==> f.location <= addr < f.location + f.range) <==>
            f.location + f.range < TWO64 || addr < f.location
  {
  }
}
