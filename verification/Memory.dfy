/**
 The address space of the traced process as a value, with the byte-wise reads
 and writes that the debugger's word-wise accesses are proved to refine.
 */
module Memory {
  import opened Bytes

  /** One past the highest user-space address; the kernel serves no access beyond it. */
  const USER_TOP: int := 0x8000_0000_0000

  type Mem = map<int, Byte>

  /** Every byte of [addr, addr + n) is a mapped user-space byte. */
  ghost predicate Mapped(m: Mem, addr: int, n: nat) {
    0 <= addr && addr + n <= USER_TOP && forall a :: addr <= a < addr + n ==> a in m
  }

  /** The n bytes at addr. */
  ghost function ReadBytes(m: Mem, addr: int, n: nat): (s: seq<Byte>)
    requires Mapped(m, addr, n)
    ensures |s| == n
    ensures forall i :: 0 <= i < n ==> s[i] == m[addr + i]
  {
    seq(n, i requires 0 <= i < n => m[addr + i])
  }

  /** The memory m with the mapped bytes of [addr, addr + |s|) replaced by s. */
  function WriteBytes(m: Mem, addr: int, s: seq<Byte>): (m': Mem)
    ensures m'.Keys == m.Keys
    ensures forall a <- m :: m'[a] == if addr <= a < addr + |s| then s[a - addr] else m[a]
  {
    map a | a in m :: if addr <= a < addr + |s| then s[a - addr] else m[a]
  }

  lemma ReadBytesExtend(m: Mem, addr: int, n: nat)
    requires Mapped(m, addr, n) && addr + n in m && addr + n < USER_TOP
    ensures Mapped(m, addr, n + 1)
    ensures ReadBytes(m, addr, n + 1) == ReadBytes(m, addr, n) + [m[addr + n]]
  {
  }

  /** Writing two adjacent runs is writing their concatenation. */
  lemma WriteBytesAppend(m: Mem, addr: int, s: seq<Byte>, t: seq<Byte>)
    ensures WriteBytes(WriteBytes(m, addr, s), addr + |s|, t) == WriteBytes(m, addr, s + t)
  {
  }

  /** Writing a further chunk of `data` after its first `offset` bytes. */
  lemma WriteBytesStep(m: Mem, addr: int, data: seq<Byte>, offset: nat, n: nat)
    requires offset + n <= |data|
    ensures WriteBytes(WriteBytes(m, addr, data[..offset]), addr + offset, data[offset..offset + n]) ==
            WriteBytes(m, addr, data[..offset + n])
  {
    WriteBytesAppend(m, addr, data[..offset], data[offset..offset + n]);
    assert data[..offset] + data[offset..offset + n] == data[..offset + n];
  }

  /**
   Replacing part of a word: read the word at `base`, replace the bytes from
   offset `off` by `s`, write the whole word back. Only the bytes of s change.
   */
  lemma PatchWord(m: Mem, base: int, word: seq<Byte>, off: nat, s: seq<Byte>)
    requires |word| == 8 && off + |s| <= 8
    requires Mapped(m, base, 8) && word == ReadBytes(m, base, 8)
    ensures WriteBytes(m, base, word[..off] + s + word[off + |s|..]) == WriteBytes(m, base + off, s)
  {
    var patched := word[..off] + s + word[off + |s|..];
    var left, right := WriteBytes(m, base, patched), WriteBytes(m, base + off, s);
    forall a | a in m
      ensures left[a] == right[a]
    {
      if base <= a < base + 8 {
        assert word[a - base] == m[base + (a - base)];
        assert patched[a - base] == if off <= a - base < off + |s| then s[a - base - off] else word[a - base];
      }
    }
  }

  /** The same with the word travelling as a 64-bit value, as peek and poke carry it. */
  lemma PatchWordValue(m: Mem, base: int, off: nat, s: seq<Byte>)
    requires Mapped(m, base, 8) && off + |s| <= 8
    ensures
      var word := ToLE(FromLE(ReadBytes(m, base, 8)), 8);
      var patched := FromLE(word[..off] + s + word[off + |s|..]);
      patched < TWO64 && WriteBytes(m, base, ToLE(patched, 8)) == WriteBytes(m, base + off, s)
  {
    var word := ReadBytes(m, base, 8);
    ToLEFromLE(word);
    var patched := word[..off] + s + word[off + |s|..];
    WordBound(patched);
    ToLEFromLE(patched);
    PatchWord(m, base, word, off, s);
  }

  /**
   Replacing the low byte of the word at addr: read it, clear the low eight bits,
   or in b, write it back. Exactly the byte at addr changes, and it was the low byte.
   */
  lemma PatchLowByte(m: Mem, addr: int, b: Byte)
    requires Mapped(m, addr, 8)
    ensures addr in m
    ensures
      var w := FromLE(ReadBytes(m, addr, 8));
      && w % 256 == m[addr] && w - w % 256 + b < TWO64
      && WriteBytes(m, addr, ToLE(w - w % 256 + b, 8)) == m[addr := b]
  {
    var bytes := ReadBytes(m, addr, 8);
    var w := FromLE(bytes);
    var patched := [b] + bytes[1..];
    assert FromLE(patched) == w - w % 256 + b;
    WordBound(patched);
    ToLEFromLE(patched);
    PatchWord(m, addr, bytes, 0, [b]);
    assert bytes[..0] + [b] + bytes[1..] == patched;
  }

  lemma Inhabited(s: set<int>)
    ensures s == {} || exists t :: t in s
  {
    var empty: set<int> := {};
    assert (forall t :: t in s <==> t in empty) ==> s == empty;
  }

  function AlignDown(addr: int): (a: int)
    ensures a % 8 == 0 && a <= addr < a + 8
  {
    addr - addr % 8
  }

  /** Every aligned word that overlaps [addr, addr + n) is mapped. */
  ghost predicate WordsMapped(m: Mem, addr: int, n: nat) {
    forall a :: addr <= a < addr + n ==> WordMapped(m, a)
  }

  ghost predicate WordMapped(m: Mem, addr: int) {
    Mapped(m, AlignDown(addr), 8)
  }
}
