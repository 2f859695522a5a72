/**
 The layout of CIEs and FDEs in .eh_frame (section 10.6 of LSB Core), and the
 proof that the parser inverts it.
 */
module FrameEncoding {
  import opened Bytes
  import opened Tracee
  import opened Leb128
  import opened CfiReading
  import opened CallFrame
  import opened PointerEncoding
  import opened CallFrameEncoding
  import opened FrameEntries

  // ---------------------------------------------------------------- augmentations

  /** What an augmentation string can announce after its z. */
  datatype Aug =
    | PointerAug(enc: Byte)
    | LsdaAug(enc: Byte)
    | PersonalityAug(enc: Byte, raw: int)
    | SignalAug

  function AugChar(a: Aug): Byte {
    match a case PointerAug(_) => CHAR_R case LsdaAug(_) => CHAR_L case PersonalityAug(_, _) => CHAR_P case SignalAug => CHAR_S
  }

  /** The personality pointer is omitted, or stored in a known encoding. */
  predicate GoodAug(a: Aug) {
    a.PersonalityAug? && a.enc != PTR_OMIT ==> KnownEncoding(a.enc) && RawFits(a.enc, a.raw)
  }

  function AugBytes(a: Aug): seq<Byte>
    requires GoodAug(a)
  {
    match a
    case PointerAug(enc) => [enc]
    case LsdaAug(enc) => [enc]
    case PersonalityAug(enc, raw) => [enc] + if enc == PTR_OMIT then [] else RawBytes(enc, raw)
    case SignalAug => []
  }

  function AugChars(augs: seq<Aug>): seq<Byte> {
    if augs == [] then [] else [AugChar(augs[0])] + AugChars(augs[1..])
  }

  function AugData(augs: seq<Aug>): seq<Byte>
    requires forall a <- augs :: GoodAug(a)
  {
    if augs == [] then [] else AugBytes(augs[0]) + AugData(augs[1..])
  }

  /** The encodings after the augmentations; the last one of a kind counts. */
  function Announced(augs: seq<Aug>, e: Encodings): Encodings {
    if augs == [] then e
    else
      Announced(augs[1..], if augs[0].PointerAug? then e.(ptr := augs[0].enc) else if augs[0].LsdaAug? then e.(lsda := augs[0].enc) else e)
  }

  /** A personality pointer takes exactly its bytes. */
  lemma PersonalityReads(prefix: seq<Byte>, enc: Byte, raw: int, rest: seq<Byte>, body: seq<Byte>, base: U64)
    requires KnownEncoding(enc) && RawFits(enc, raw) && body == prefix + RawBytes(enc, raw) + rest
    ensures AddressAt(body, base, |prefix|, enc).Got?
    ensures AddressAt(body, base, |prefix|, enc).next == |prefix + RawBytes(enc, raw)|
  {
    RawRoundTrip(prefix, enc, raw, rest, body);
    AddressFromRaw(body, base, |prefix|, enc, raw, |prefix + RawBytes(enc, raw)|);
  }

  lemma PersonalityStep(prefix: seq<Byte>, enc: Byte, raw: int, chars: seq<Byte>, rest: seq<Byte>, body: seq<Byte>, base: U64, end: nat, e: Encodings)
    requires KnownEncoding(enc) && RawFits(enc, raw) && body == prefix + ([enc] + RawBytes(enc, raw)) + rest && end <= |body|
    ensures AugmentationAt([CHAR_P] + chars, body, base, |prefix|, end, e) ==
            AugmentationAt(chars, body, base, |prefix + ([enc] + RawBytes(enc, raw))|, end, e)
  {
    assert ([CHAR_P] + chars)[1..] == chars;
    Recut(prefix, [enc], RawBytes(enc, raw), rest);
    assert body[|prefix|] == enc;
    PersonalityReads(prefix + [enc], enc, raw, rest, body, base);
  }

  /** One augmentation with its data behind a prefix. */
  lemma AugStep(prefix: seq<Byte>, a: Aug, chars: seq<Byte>, rest: seq<Byte>, body: seq<Byte>, base: U64, end: nat, e: Encodings)
    requires GoodAug(a) && body == prefix + AugBytes(a) + rest && end <= |body|
    ensures AugmentationAt([AugChar(a)] + chars, body, base, |prefix|, end, e) ==
            AugmentationAt(chars, body, base, |prefix + AugBytes(a)|, end, Announced([a], e))
  {
    OneAnnounced(a, e);
    if a.PersonalityAug? && a.enc != PTR_OMIT {
      PersonalityStep(prefix, a.enc, a.raw, chars, rest, body, base, end, e);
    } else {
      assert ([AugChar(a)] + chars)[1..] == chars;
      assert a.SignalAug? || body[|prefix|] == a.enc;
    }
  }

  lemma OneAnnounced(a: Aug, e: Encodings)
    ensures Announced([a], e) == if a.PointerAug? then e.(ptr := a.enc) else if a.LsdaAug? then e.(lsda := a.enc) else e
  {
    assert [a][1..] == [];
  }

  lemma {:induction false} AugmentationRoundTrip(prefix: seq<Byte>, augs: seq<Aug>, rest: seq<Byte>, body: seq<Byte>, base: U64, end: nat, e: Encodings)
    requires forall a <- augs :: GoodAug(a)
    requires body == prefix + AugData(augs) + rest && end <= |body|
    ensures AugmentationAt(AugChars(augs), body, base, |prefix|, end, e) == Some(Announced(augs, e))
    decreases |augs|
  {
    if augs != [] {
      var bytes, more := AugBytes(augs[0]), AugData(augs[1..]);
      Recut(prefix, bytes, more, rest);
      AugStep(prefix, augs[0], AugChars(augs[1..]), more + rest, body, base, end, e);
      AugmentationRoundTrip(prefix + bytes, augs[1..], rest, body, base, end, Announced([augs[0]], e));
      AnnouncedStep(augs, e);
    }
  }

  lemma AnnouncedStep(augs: seq<Aug>, e: Encodings)
    requires augs != []
    ensures Announced(augs, e) == Announced(augs[1..], Announced([augs[0]], e))
  {
    assert [augs[0]][1..] == [];
  }

  // ---------------------------------------------------------------- CIE

  /** A CIE before encoding; `augs` is None without a z. */
  datatype CieSource = CieSource(version: Byte, augs: Option<seq<Aug>>, factors: Factors, code: seq<Byte>)

  predicate WellFormed(c: CieSource) {
    && (c.version == 1 || c.version == 3)
    && (c.version == 1 ==> c.factors.returnReg < 256)
    && (c.augs.Some? ==> (forall a <- c.augs.value :: GoodAug(a)) && |AugData(c.augs.value)| < TWO63)
  }

  function AugString(c: CieSource): seq<Byte> {
    if c.augs.None? then [] else [CHAR_Z] + AugChars(c.augs.value)
  }

  function EncodeReturnReg(version: Byte, reg: U64): seq<Byte>
    requires version == 1 ==> reg < 256
  {
    if version == 1 then [reg] else EncodeUleb(reg)
  }

  function EncodeFactors(version: Byte, f: Factors): seq<Byte>
    requires version == 1 ==> f.returnReg < 256
  {
    EncodeUleb(f.code) + (EncodeSleb(f.data) + EncodeReturnReg(version, f.returnReg))
  }

  function EncodeAugData(c: CieSource): seq<Byte>
    requires WellFormed(c)
  {
    if c.augs.None? then [] else EncodeUleb(|AugData(c.augs.value)|) + AugData(c.augs.value)
  }

  function EncodePreamble(c: CieSource): seq<Byte> {
    [0, 0, 0, 0, c.version] + (AugString(c) + [0])
  }

  /** The body of the entry. */
  function EncodeCie(c: CieSource): seq<Byte>
    requires WellFormed(c)
  {
    EncodePreamble(c) + EncodeFactors(c.version, c.factors) + EncodeAugData(c) + c.code
  }

  /** What parsing should find. */
  function Parsed(c: CieSource): CieEntry
    requires WellFormed(c)
  {
    var e := if c.augs.None? then Encodings(0, 0) else Announced(c.augs.value, Encodings(0, 0));
    CieEntry(Cie(c.factors.code, c.factors.data, e.ptr), |EncodeCie(c)|, c.factors.returnReg, c.augs.Some?, e.lsda, c.code)
  }

  predicate NoZero(s: seq<Byte>) {
    forall k :: 0 <= k < |s| ==> s[k] != 0
  }

  lemma {:induction false} StringRoundTrip(prefix: seq<Byte>, s: seq<Byte>, rest: seq<Byte>, body: seq<Byte>)
    requires body == prefix + (s + [0]) + rest && NoZero(s)
    ensures StringAt(body, |prefix|) == Got(s, |prefix| + |s| + 1)
    decreases |s|
  {
    if s == [] {
      assert body[|prefix|] == 0;
    } else {
      assert body[|prefix|] == s[0];
      assert body == (prefix + [s[0]]) + (s[1..] + [0]) + rest;
      StringRoundTrip(prefix + [s[0]], s[1..], rest, body);
      assert [s[0]] + s[1..] == s;
    }
  }

  lemma {:induction false} AugCharsNonzero(augs: seq<Aug>)
    ensures NoZero(AugChars(augs))
  {
    if augs != [] {
      AugCharsNonzero(augs[1..]);
    }
  }

  lemma PreambleRoundTrip(c: CieSource, rest: seq<Byte>, body: seq<Byte>)
    requires WellFormed(c) && body == EncodePreamble(c) + rest
    ensures PreambleAt(body) == Got(Preamble(c.version, AugString(c)), |EncodePreamble(c)|)
  {
    var head := [0, 0, 0, 0, c.version];
    if c.augs.Some? {
      AugCharsNonzero(c.augs.value);
    }
    assert body == head + (AugString(c) + [0]) + rest;
    StringRoundTrip(head, AugString(c), rest, body);
    assert body[4] == c.version;
    assert body[0..4] == ToLE(0, 4) by {
      assert ToLE(0, 4) == [0] + ToLE(0, 3) && ToLE(0, 3) == [0] + ToLE(0, 2) && ToLE(0, 2) == [0] + ToLE(0, 1);
      assert ToLE(0, 1) == [0] + ToLE(0, 0);
    }
    FromLEToLE(0, 4);
  }

  lemma ReturnRegRoundTrip(prefix: seq<Byte>, version: Byte, reg: U64, rest: seq<Byte>, body: seq<Byte>)
    requires (version == 1 ==> reg < 256) && body == prefix + EncodeReturnReg(version, reg) + rest
    ensures ReturnRegAt(body, |prefix|, version) == Got(reg, |prefix + EncodeReturnReg(version, reg)|)
  {
    if version == 1 {
      assert body[|prefix|] == reg;
    } else {
      OneUleb(prefix, reg, rest, body);
    }
  }

  lemma FirstSleb(prefix: seq<Byte>, v: I64, y: seq<Byte>, rest: seq<Byte>, data: seq<Byte>)
    requires data == prefix + (EncodeSleb(v) + y) + rest
    ensures SlebAt(data, |prefix|) == Got(v, |prefix + EncodeSleb(v)|)
    ensures data == (prefix + EncodeSleb(v)) + y + rest
  {
    Recut(prefix, EncodeSleb(v), y, rest);
    SlebRoundTrip(prefix, v, y + rest);
  }

  lemma FactorsRoundTrip(prefix: seq<Byte>, version: Byte, f: Factors, rest: seq<Byte>, body: seq<Byte>)
    requires (version == 1 ==> f.returnReg < 256) && body == prefix + EncodeFactors(version, f) + rest
    ensures FactorsAt(body, |prefix|, version) == Got(f, |prefix + EncodeFactors(version, f)|)
  {
    var ret := EncodeReturnReg(version, f.returnReg);
    FirstUleb(prefix, f.code, EncodeSleb(f.data) + ret, rest, body);
    FirstSleb(prefix + EncodeUleb(f.code), f.data, ret, rest, body);
    ReturnRegRoundTrip(prefix + EncodeUleb(f.code) + EncodeSleb(f.data), version, f.returnReg, rest, body);
  }

  lemma EncodingsFound(aug: seq<Byte>, body: seq<Byte>, base: U64, pos: nat, length: U64, p: nat, e: Encodings)
    requires pos <= |body| && aug != [] && aug[0] == CHAR_Z && length < TWO63
    requires UlebAt(body, pos) == Got(length, p) && p + length <= |body|
    requires AugmentationAt(aug[1..], body, base, p, p + length, Encodings(0, 0)) == Some(e)
    ensures EncodingsAt(aug, body, base, pos) == Got(e, p + length)
  {
  }

  /** The encodings that the augmentations announce. */
  function FinalEncodings(c: CieSource): Encodings {
    if c.augs.None? then Encodings(0, 0) else Announced(c.augs.value, Encodings(0, 0))
  }

  lemma EncodingsRoundTrip(prefix: seq<Byte>, c: CieSource, rest: seq<Byte>, body: seq<Byte>, base: U64)
    requires WellFormed(c) && body == prefix + EncodeAugData(c) + rest
    ensures EncodingsAt(AugString(c), body, base, |prefix|) == Got(FinalEncodings(c), |prefix + EncodeAugData(c)|)
  {
    if c.augs.Some? {
      var data := AugData(c.augs.value);
      var p := prefix + EncodeUleb(|data|);
      FirstUleb(prefix, |data|, data, rest, body);
      assert AugString(c)[1..] == AugChars(c.augs.value);
      AugmentationRoundTrip(p, c.augs.value, rest, body, base, |p| + |data|, Encodings(0, 0));
      EncodingsFound(AugString(c), body, base, |prefix|, |data|, |p|, FinalEncodings(c));
    }
  }

  lemma CieParts(body: seq<Byte>, base: U64, pre: Preamble, p: nat, f: Factors, q: nat, e: Encodings, next: nat)
    requires PreambleAt(body) == Got(pre, p) && p <= |body| && FactorsAt(body, p, pre.version) == Got(f, q) && q <= |body|
    requires EncodingsAt(pre.aug, body, base, q) == Got(e, next) && next <= |body|
    ensures CieOf(body, base) ==
            Some(CieEntry(Cie(f.code, f.data, e.ptr), |body|, f.returnReg, pre.aug != [] && pre.aug[0] == CHAR_Z, e.lsda, body[next..]))
  {
  }

  lemma FourParts(a: seq<Byte>, b: seq<Byte>, c: seq<Byte>, d: seq<Byte>)
    ensures a + b + c + d == a + (b + c + d) && a + b + c + d == a + b + (c + d)
    ensures (a + b + c + d)[|a + b + c|..] == d
  {
  }

  /** Parsing an encoded CIE gives back every field, whatever its augmentations and wherever it is loaded. */
  lemma CieRoundTrip(c: CieSource, base: U64)
    requires WellFormed(c)
    ensures CieOf(EncodeCie(c), base) == Some(Parsed(c))
  {
    var body := EncodeCie(c);
    var pre, fac, aug := EncodePreamble(c), EncodeFactors(c.version, c.factors), EncodeAugData(c);
    FourParts(pre, fac, aug, c.code);
    PreambleRoundTrip(c, fac + aug + c.code, body);
    FactorsRoundTrip(pre, c.version, c.factors, aug + c.code, body);
    EncodingsRoundTrip(pre + fac, c, c.code, body, base);
    CieParts(body, base, Preamble(c.version, AugString(c)), |pre|, c.factors, |pre + fac|, FinalEncodings(c), |pre + fac + aug|);
  }

  // ---------------------------------------------------------------- FDE

  /** An FDE before encoding. */
  datatype FdeSource = FdeSource(location: U64, range: U64, augmentation: seq<Byte>, code: seq<Byte>)

  /** The pointers of the FDE fit the CIE's encoding. */
  predicate Reaches(enc: Byte, base: U64, f: FdeSource) {
    && KnownEncoding(enc) && RawFits(enc, RawFor(enc, base, 4, f.location))
    && RawFits(enc % 16, RawFor(enc % 16, 0, 0, f.range))
    && |f.augmentation| < TWO63
  }

  function EncodeLocation(enc: Byte, base: U64, f: FdeSource): seq<Byte>
    requires Reaches(enc, base, f)
  {
    RawBytes(enc, RawFor(enc, base, 4, f.location))
  }

  /** The range has the format of the location, but is never relative. */
  function EncodeRange(enc: Byte, base: U64, f: FdeSource): seq<Byte>
    requires Reaches(enc, base, f)
  {
    RawBytes(enc % 16, RawFor(enc % 16, 0, 0, f.range))
  }

  lemma FormatKnown(enc: Byte)
    requires KnownEncoding(enc)
    ensures KnownEncoding(enc % 16) && enc % 16 % 16 == enc % 16 && enc % 16 / 16 == 0
  {
  }

  lemma RangeReads(prefix: seq<Byte>, enc: Byte, base: U64, f: FdeSource, rest: seq<Byte>, body: seq<Byte>)
    requires Reaches(enc, base, f) && body == prefix + EncodeRange(enc, base, f) + rest
    ensures AddressAt(body, base, |prefix|, enc % 16) == Got(f.range, |prefix + EncodeRange(enc, base, f)|)
  {
    FormatKnown(enc);
    AddressRoundTrip(prefix, enc % 16, base, f.range, RawFor(enc % 16, 0, 0, f.range), rest, body);
  }

  function EncodeFdeAug(f: FdeSource, hasAugmentation: bool): seq<Byte> {
    if hasAugmentation then EncodeUleb(|f.augmentation|) + f.augmentation else []
  }

  lemma CodeStarts(prefix: seq<Byte>, f: FdeSource, hasAugmentation: bool, rest: seq<Byte>, body: seq<Byte>)
    requires |f.augmentation| < TWO63 && body == prefix + EncodeFdeAug(f, hasAugmentation) + rest
    ensures CodeStart(body, |prefix|, hasAugmentation) == Some(|prefix + EncodeFdeAug(f, hasAugmentation)|)
  {
    if hasAugmentation {
      FirstUleb(prefix, |f.augmentation|, f.augmentation, rest, body);
    }
  }

  /** The body of the entry, loaded at `base`, for a CIE `ciePtr` bytes before its pointer field. */
  function EncodeFde(f: FdeSource, ciePtr: nat, base: U64, cie: CieEntry): seq<Byte>
    requires Reaches(cie.cie.ptrEnc, base, f)
  {
    ToLE(ciePtr, 4) + EncodeLocation(cie.cie.ptrEnc, base, f) + EncodeRange(cie.cie.ptrEnc, base, f)
      + EncodeFdeAug(f, cie.hasAugmentation) + f.code
  }

  lemma FiveParts(a: seq<Byte>, b: seq<Byte>, c: seq<Byte>, d: seq<Byte>, e: seq<Byte>)
    ensures a + b + c + d + e == a + b + (c + d + e) && a + b + c + d + e == (a + b) + c + (d + e)
    ensures a + b + c + d + e == (a + b + c) + d + e && (a + b + c + d + e)[|a + b + c + d|..] == e
  {
  }

  lemma FdeParts(body: seq<Byte>, base: U64, cie: CieEntry, x: Extent, p: nat, q: nat)
    requires |body| >= 4 && ExtentAt(body, base, 4, cie.cie.ptrEnc) == Got(x, p) && p <= |body|
    requires CodeStart(body, p, cie.hasAugmentation) == Some(q) && q <= |body|
    ensures FdeOf(body, base, cie) == Some(Fde(|body|, cie, x.location, x.range, body[q..]))
  {
  }

  lemma ExtentParts(body: seq<Byte>, base: U64, enc: Byte, location: U64, range: U64, p: nat, q: nat)
    requires |body| >= 4 && AddressAt(body, base, 4, enc) == Got(location, p) && p <= |body|
    requires AddressAt(body, base, p, enc % 16) == Got(range, q)
    ensures ExtentAt(body, base, 4, enc) == Got(Extent(location, range), q)
  {
  }

  /** Parsing an encoded FDE gives back its range and code. */
  lemma FdeRoundTrip(f: FdeSource, ciePtr: nat, base: U64, cie: CieEntry)
    requires Reaches(cie.cie.ptrEnc, base, f)
    ensures FdeOf(EncodeFde(f, ciePtr, base, cie), base, cie) ==
            Some(Fde(|EncodeFde(f, ciePtr, base, cie)|, cie, f.location, f.range, f.code))
  {
    var enc, body := cie.cie.ptrEnc, EncodeFde(f, ciePtr, base, cie);
    var a, b, c, d := ToLE(ciePtr, 4), EncodeLocation(enc, base, f), EncodeRange(enc, base, f), EncodeFdeAug(f, cie.hasAugmentation);
    FiveParts(a, b, c, d, f.code);
    AddressRoundTrip(a, enc, base, f.location, RawFor(enc, base, 4, f.location), c + d + f.code, body);
    RangeReads(a + b, enc, base, f, d + f.code, body);
    ExtentParts(body, base, enc, f.location, f.range, |a + b|, |a + b + c|);
    CodeStarts(a + b + c, f, cie.hasAugmentation, f.code, body);
    FdeParts(body, base, cie, Extent(f.location, f.range), |a + b + c|, |a + b + c + d|);
  }

  // ---------------------------------------------------------------- sections

  /** The section holds an entry with this body at an offset. */
  predicate HoldsEntry(sec: Section, offset: nat, body: seq<Byte>) {
    && 0 < |body| < 0xffff_ffff && offset + 4 + |body| <= |sec.data|
    && sec.data[offset..offset + 4 + |body|] == ToLE(|body|, 4) + body
  }

  lemma BodyFound(sec: Section, offset: nat, body: seq<Byte>)
    requires HoldsEntry(sec, offset, body)
    ensures BodyAt(sec, offset).Got? && BodyAt(sec, offset).value == body
  {
    var tail, n := sec.data[offset..], |body|;
    assert tail == [] + ToLE(n, 4) + tail[4..] by {
      assert tail[..4 + n] == ToLE(n, 4) + body;
      assert tail[..4] == tail[..4 + n][..4];
    }
    FieldReads([], n, 4, tail[4..], tail);
    assert tail[4..4 + n] == tail[..4 + n][4..] == (ToLE(n, 4) + body)[4..] == body;
  }

  lemma CieFound(sec: Section, offset: nat, c: CieSource)
    requires WellFormed(c) && HoldsEntry(sec, offset, EncodeCie(c))
    ensures CieAt(sec, offset) == Some(Parsed(c))
  {
    BodyFound(sec, offset, EncodeCie(c));
    CieRoundTrip(c, BodyAddr(sec, offset));
  }

  /** An encoded FDE that points back at a known CIE. */
  lemma FdeWithCie(sec: Section, cieOffset: U64, fdeOffset: U64, ciePtr: nat, cie: CieEntry, f: FdeSource, body: seq<Byte>)
    requires CieAt(sec, cieOffset) == Some(cie)
    requires 0 < ciePtr < 0x1_0000_0000 && cieOffset + ciePtr == fdeOffset + 4 < TWO64
    requires Reaches(cie.cie.ptrEnc, BodyAddr(sec, fdeOffset), f)
    requires body == EncodeFde(f, ciePtr, BodyAddr(sec, fdeOffset), cie) && HoldsEntry(sec, fdeOffset, body)
    ensures FdeAt(sec, fdeOffset) == Some(Fde(|body|, cie, f.location, f.range, f.code))
  {
    BodyFound(sec, fdeOffset, body);
    FdeHead(f, ciePtr, BodyAddr(sec, fdeOffset), cie);
    PointsBack(body, ciePtr, fdeOffset, cieOffset);
    FdeFound(sec, fdeOffset, body, cieOffset, cie);
    FdeRoundTrip(f, ciePtr, BodyAddr(sec, fdeOffset), cie);
  }

  /**
   A section that holds an encoded CIE and an encoded FDE pointing back at it: parsing at
   the FDE's offset finds both, with every field.
   */
  lemma SectionRoundTrip(sec: Section, cieOffset: U64, fdeOffset: U64, ciePtr: nat, c: CieSource, f: FdeSource, body: seq<Byte>)
    requires WellFormed(c) && HoldsEntry(sec, cieOffset, EncodeCie(c))
    requires 0 < ciePtr < 0x1_0000_0000 && cieOffset + ciePtr == fdeOffset + 4 < TWO64
    requires Reaches(Parsed(c).cie.ptrEnc, BodyAddr(sec, fdeOffset), f)
    requires body == EncodeFde(f, ciePtr, BodyAddr(sec, fdeOffset), Parsed(c)) && HoldsEntry(sec, fdeOffset, body)
    ensures FdeAt(sec, fdeOffset) == Some(Fde(|body|, Parsed(c), f.location, f.range, f.code))
  {
    CieFound(sec, cieOffset, c);
    FdeWithCie(sec, cieOffset, fdeOffset, ciePtr, Parsed(c), f, body);
  }

  lemma FdeHead(f: FdeSource, ciePtr: nat, base: U64, cie: CieEntry)
    requires Reaches(cie.cie.ptrEnc, base, f)
    ensures |EncodeFde(f, ciePtr, base, cie)| >= 4 && EncodeFde(f, ciePtr, base, cie)[..4] == ToLE(ciePtr, 4)
  {
  }

  lemma PointsBack(body: seq<Byte>, ciePtr: nat, fdeOffset: U64, cieOffset: U64)
    requires 0 < ciePtr < 0x1_0000_0000 && cieOffset + ciePtr == fdeOffset + 4 < TWO64
    requires |body| >= 4 && body[..4] == ToLE(ciePtr, 4)
    ensures CiePointer(body) == Got(ciePtr, 4) && CieOffset(fdeOffset, ciePtr) == cieOffset
  {
    assert body == [] + ToLE(ciePtr, 4) + body[4..];
    FieldReads([], ciePtr, 4, body[4..], body);
  }

  lemma FdeFound(sec: Section, offset: U64, body: seq<Byte>, cieOffset: U64, cie: CieEntry)
    requires BodyAt(sec, offset).Got? && BodyAt(sec, offset).value == body && |body| >= 4
    requires CiePointer(body).Got? && CiePointer(body).value != 0 && CieOffset(offset, CiePointer(body).value) == cieOffset
    requires CieAt(sec, cieOffset) == Some(cie)
    ensures FdeAt(sec, offset) == FdeOf(body, BodyAddr(sec, offset), cie)
  {
  }
}
