/**
 The parameter classes of section 3.2.3 of the System V AMD64 psABI as the
 debugger computes them, against the definition by leaves: the class of an
 eightbyte is the maximum over the scalars that lie in it.
 */
module Classification {

  datatype Class = NoClass | Integer | SSE | Memory | X87 | X87Up

  /** The classes of the two eightbytes that registers can hold. */
  datatype Classes = Classes(lo: Class, hi: Class)

  /**
   Types as the classification distinguishes them: pointers, functions, enums, integers
   and everything unknown are Plain; typedefs and qualifiers are Qualified.
   */
  datatype Type =
    | Plain(size: nat)
    | Floating(size: nat)
    | LongDouble
    | Struct(size: nat, members: seq<Member>)
    | Array(size: nat, elem: Type)
    | Qualified(inner: Type)

  datatype Member = Member(name: string, offset: nat, typ: Type)

  function Size(t: Type): nat {
    match t
    case LongDouble => 16
    case Qualified(inner) => Size(inner)
    case _ => t.size
  }

  /** mergeParamClass. */
  function Merge(a: Class, b: Class): Class {
    if a == b then a
    else if a == NoClass then b
    else if b == NoClass then a
    else if a == Memory || b == Memory then Memory
    else if a == Integer || b == Integer then Integer
    else if a == X87 || b == X87 || a == X87Up || b == X87Up then Memory
    else SSE
  }

  /** Two different classes that go to memory unless an integer joins them first. */
  predicate Clash(a: Class, b: Class) {
    a != b && (a.SSE? || a.X87? || a.X87Up?) && (b.SSE? || b.X87? || b.X87Up?)
  }

  /** Merging is associative except when an integer meets a clash from outside. */
  lemma MergeAssociates(a: Class, b: Class, c: Class)
    ensures Merge(Merge(a, b), c) == Merge(a, Merge(b, c)) <==>
            !(c.Integer? && Clash(a, b)) && !(a.Integer? && Clash(b, c))
  {
  }

  // ---------------------------------------------------------------- classifyType

  /** One named member merged into the classes so far. */
  function AddMember(sofar: Classes, m: Member, c: Classes): Classes {
    if m.name == "" then sofar
    else if m.offset / 8 >= 1 then sofar.(hi := Merge(sofar.hi, c.lo))
    else Classes(Merge(sofar.lo, c.lo), if c.hi != NoClass then Merge(sofar.hi, c.hi) else sofar.hi)
  }

  function Cleanup(c: Classes): Classes {
    if c.lo == Memory || c.hi == Memory then Classes(Memory, Memory) else c
  }

  /** classifyType. */
  function Classify(t: Type): Classes
    decreases t, if t.Struct? then |t.members| + 1 else 0
  {
    match t
    case Plain(_) => Classes(Integer, NoClass)
    case Floating(_) => Classes(SSE, NoClass)
    case LongDouble => Classes(X87, X87Up)
    case Qualified(inner) => Classify(inner)
    case Struct(size, members) => if size > 16 then Classes(Memory, Memory) else Cleanup(ClassifyMembers(t, |members|))
    case Array(size, elem) =>
      if size > 16 then Classes(Memory, Memory)
      else
        var c := Classify(elem);
        if size > 8 && c.hi == NoClass then Classes(c.lo, c.lo) else c
  }

  /** The first n members of a struct. */
  function ClassifyMembers(t: Type, n: nat): Classes
    requires t.Struct? && n <= |t.members|
    decreases t, n
  {
    if n == 0 then Classes(NoClass, NoClass)
    else AddMember(ClassifyMembers(t, n - 1), t.members[n - 1], Classify(t.members[n - 1].typ))
  }

  /** classifyType, with the loop of classifyStructType. */
  method ClassifyType(t: Type) returns (c: Classes)
    ensures c == Classify(t)
    decreases t
  {
    match t
    case Plain(_) => c := Classes(Integer, NoClass);
    case Floating(_) => c := Classes(SSE, NoClass);
    case LongDouble => c := Classes(X87, X87Up);
    case Qualified(inner) => c := ClassifyType(inner);
    case Array(size, elem) =>
      if size > 16 {
        return Classes(Memory, Memory);
      }
      c := ClassifyType(elem);
      if size > 8 && c.hi == NoClass {
        c := c.(hi := c.lo);
      }
    case Struct(size, members) =>
      if size > 16 {
        return Classes(Memory, Memory);
      }
      var lo, hi := NoClass, NoClass;
      for i := 0 to |members|
        invariant Classes(lo, hi) == ClassifyMembers(t, i)
      {
        var m := members[i];
        if m.name == "" {
          continue;
        }
        var f := ClassifyType(m.typ);
        if m.offset / 8 >= 1 {
          hi := Merge(hi, f.lo);
        } else {
          lo := Merge(lo, f.lo);
          if f.hi != NoClass {
            hi := Merge(hi, f.hi);
          }
        }
      }
      c := if lo == Memory || hi == Memory then Classes(Memory, Memory) else Classes(lo, hi);
  }

  // ---------------------------------------------------------------- leaves

  /** A scalar of class c lies in eightbyte k, when t stands at base. */
  ghost predicate HasLeaf(t: Type, base: nat, k: nat, c: Class)
    decreases t, 0
  {
    match t
    case Plain(_) => c == Integer && base / 8 == k
    case Floating(_) => c == SSE && base / 8 == k
    case LongDouble => (c == X87 && base / 8 == k) || (c == X87Up && base / 8 + 1 == k)
    case Qualified(inner) => HasLeaf(inner, base, k, c)
    case Struct(_, members) => exists i :: 0 <= i < |members| && MemberLeaf(members[i], base, k, c)
    case Array(size, elem) => exists i: nat :: i < Count(size, elem) && ElementLeaf(elem, i, base, k, c)
  }

  ghost predicate MemberLeaf(m: Member, base: nat, k: nat, c: Class)
    decreases m.typ, 1
  {
    HasLeaf(m.typ, base + m.offset, k, c)
  }

  ghost predicate ElementLeaf(elem: Type, i: nat, base: nat, k: nat, c: Class)
    decreases elem, 1
  {
    HasLeaf(elem, base + At(i, elem), k, c)
  }

  /** The number of whole elements in an array. */
  function Count(size: nat, elem: Type): nat {
    if Size(elem) == 0 || size < Size(elem) then 0 else 1 + Count(size - Size(elem), elem)
  }

  /** The offset of element i. */
  function At(i: nat, elem: Type): nat {
    if i == 0 then 0 else At(i - 1, elem) + Size(elem)
  }

  lemma {:induction false} AtIs(i: nat, elem: Type, e: nat)
    requires Size(elem) == e && e in {1, 2, 4, 8}
    ensures At(i, elem) == if e == 1 then i else if e == 2 then 2 * i else if e == 4 then 4 * i else 8 * i
  {
    if i > 0 {
      AtIs(i - 1, elem, e);
    }
  }

  lemma SomeElement(t: Type, base: nat, k: nat, c: Class) returns (i: nat)
    requires t.Array? && HasLeaf(t, base, k, c)
    ensures i < Count(t.size, t.elem) && ElementLeaf(t.elem, i, base, k, c)
  {
    var j: nat :| j < Count(t.size, t.elem) && ElementLeaf(t.elem, j, base, k, c);
    i := j;
  }

  lemma SomeMember(t: Type, base: nat, k: nat, c: Class) returns (i: nat)
    requires t.Struct? && HasLeaf(t, base, k, c)
    ensures i < |t.members| && MemberLeaf(t.members[i], base, k, c)
  {
    var j :| 0 <= j < |t.members| && MemberLeaf(t.members[j], base, k, c);
    i := j;
  }

  /** The maximum over the scalars in eightbyte k. */
  ghost function Maximum(t: Type, k: nat): Class {
    Largest(HasLeaf(t, 0, k, Integer), HasLeaf(t, 0, k, SSE))
  }

  /** The largest of the classes that occur, in the order NoClass, SSE, Integer. */
  ghost function Largest(integer: bool, sse: bool): Class {
    if integer then Integer else if sse then SSE else NoClass
  }

  /**
   Types the classification gets right: at most 16 bytes, named members, no long double,
   no member across an eightbyte boundary unless it starts on one, non-empty arrays of
   elements whose size divides 8.
   */
  ghost predicate Regular(t: Type)
    decreases t
  {
    match t
    case Plain(size) => 1 <= size <= 8
    case Floating(size) => 1 <= size <= 8
    case LongDouble => false
    case Qualified(inner) => Regular(inner)
    case Struct(size, members) =>
      1 <= size <= 16 && forall i :: 0 <= i < |members| ==> Regular(members[i].typ) && Placed(members[i], size)
    case Array(size, elem) =>
      Regular(elem) && Size(elem) in {1, 2, 4, 8} && At(Count(size, elem), elem) == size && Size(elem) <= size <= 16
  }

  lemma {:induction false} RegularSize(t: Type)
    requires Regular(t)
    ensures 1 <= Size(t) <= 16
  {
    if t.Qualified? {
      RegularSize(t.inner);
    }
  }

  predicate Placed(m: Member, size: nat) {
    && m.name != "" && m.offset + Size(m.typ) <= size
    && (m.offset % 8 == 0 || m.offset % 8 + Size(m.typ) <= 8)
  }

  /** Moving by whole eightbytes moves the leaves. */
  lemma {:induction false} LeafShift(t: Type, base: nat, d: nat, k: nat, c: Class)
    ensures HasLeaf(t, base + 8 * d, k, c) <==> k >= d && HasLeaf(t, base, k - d, c)
    decreases t, 0
  {
    match t
    case Plain(_) =>
    case Floating(_) =>
    case LongDouble =>
    case Qualified(inner) => LeafShift(inner, base, d, k, c);
    case Struct(_, members) =>
      forall i | 0 <= i < |members|
        ensures MemberLeaf(members[i], base + 8 * d, k, c) <==> k >= d && MemberLeaf(members[i], base, k - d, c)
      {
        LeafShift(members[i].typ, base + members[i].offset, d, k, c);
        assert base + 8 * d + members[i].offset == base + members[i].offset + 8 * d;
      }
    case Array(size, elem) =>
      if HasLeaf(t, base + 8 * d, k, c) {
        var i := SomeElement(t, base + 8 * d, k, c);
        ElementShift(elem, i, base, d, k, c);
        assert ElementLeaf(elem, i, base, k - d, c);
      }
      if k >= d && HasLeaf(t, base, k - d, c) {
        var i := SomeElement(t, base, k - d, c);
        ElementShift(elem, i, base, d, k, c);
        assert ElementLeaf(elem, i, base + 8 * d, k, c);
      }
  }

  lemma {:induction false} ElementShift(elem: Type, i: nat, base: nat, d: nat, k: nat, c: Class)
    ensures ElementLeaf(elem, i, base + 8 * d, k, c) <==> k >= d && ElementLeaf(elem, i, base, k - d, c)
    decreases elem, 1
  {
    LeafShift(elem, base + At(i, elem), d, k, c);
    assert base + 8 * d + At(i, elem) == base + At(i, elem) + 8 * d;
  }

  lemma {:induction false} AtMonotone(i: nat, j: nat, elem: Type)
    requires i <= j
    ensures At(i, elem) <= At(j, elem)
    ensures i < j ==> At(i, elem) + Size(elem) <= At(j, elem)
  {
    if i < j {
      AtMonotone(i, j - 1, elem);
    }
  }

  lemma ElementInside(size: nat, elem: Type, i: nat)
    requires Size(elem) in {1, 2, 4, 8} && At(Count(size, elem), elem) == size && i < Count(size, elem)
    ensures At(i, elem) + Size(elem) <= size && At(i, elem) % 8 + Size(elem) <= 8
  {
    AtMonotone(i, Count(size, elem), elem);
    AtIs(i, elem, Size(elem));
    NoCrossing(i, At(i, elem), Size(elem));
  }

  lemma NoCrossing(i: nat, at: nat, e: nat)
    requires e in {1, 2, 4, 8} && at == if e == 1 then i else if e == 2 then 2 * i else if e == 4 then 4 * i else 8 * i
    ensures at % 8 + e <= 8
  {
  }

  /** The leaves of a regular type lie within its size. */
  lemma {:induction false} LeafInside(t: Type, base: nat, k: nat, c: Class)
    requires Regular(t) && HasLeaf(t, base, k, c)
    ensures Size(t) > 0 && base / 8 <= k <= (base + Size(t) - 1) / 8
    decreases t, 0
  {
    match t
    case Plain(_) =>
    case Floating(_) =>
    case Qualified(inner) => LeafInside(inner, base, k, c);
    case Struct(_, members) =>
      var i := SomeMember(t, base, k, c);
      PartInside(members[i].typ, members[i].offset, Size(t), base, k, c);
    case Array(_, _) => ArrayInside(t, base, k, c);
  }

  lemma {:induction false} ArrayInside(t: Type, base: nat, k: nat, c: Class)
    requires t.Array? && Regular(t) && HasLeaf(t, base, k, c)
    ensures t.size > 0 && base / 8 <= k <= (base + t.size - 1) / 8
    decreases t.elem, 2
  {
    var i := SomeElement(t, base, k, c);
    ElementInside(t.size, t.elem, i);
    PartInside(t.elem, At(i, t.elem), t.size, base, k, c);
  }

  lemma {:induction false} PartInside(t: Type, off: nat, size: nat, base: nat, k: nat, c: Class)
    requires Regular(t) && off + Size(t) <= size && HasLeaf(t, base + off, k, c)
    ensures size > 0 && base / 8 <= k <= (base + size - 1) / 8
    decreases t, 1
  {
    LeafInside(t, base + off, k, c);
    Nested(base, off, Size(t), size, k);
  }

  lemma Nested(base: nat, off: nat, n: nat, size: nat, k: nat)
    requires n > 0 && off + n <= size && (base + off) / 8 <= k <= (base + off + n - 1) / 8
    ensures base / 8 <= k <= (base + size - 1) / 8
  {
  }

  /** A regular type that fits into one eightbyte has all its leaves there. */
  lemma {:induction false} LeafWithin(t: Type, base: nat, k: nat, c: Class)
    requires Regular(t) && base % 8 + Size(t) <= 8
    ensures HasLeaf(t, base, k, c) <==> base / 8 == k && HasLeaf(t, 0, 0, c)
    decreases t, 0
  {
    match t
    case Plain(_) =>
    case Floating(_) =>
    case Qualified(inner) => LeafWithin(inner, base, k, c);
    case Struct(_, _) => MembersWithin(t, base, k, c);
    case Array(_, _) => ElementsWithin(t, base, k, c);
  }

  lemma {:induction false} MembersWithin(t: Type, base: nat, k: nat, c: Class)
    requires t.Struct? && Regular(t) && base % 8 + Size(t) <= 8
    ensures HasLeaf(t, base, k, c) <==> base / 8 == k && HasLeaf(t, 0, 0, c)
    decreases t, 0, 0
  {
    forall i | 0 <= i < |t.members|
      ensures MemberLeaf(t.members[i], base, k, c) <==> base / 8 == k && MemberLeaf(t.members[i], 0, 0, c)
    {
      PartWithin(t.members[i].typ, t.members[i].offset, t.size, base, k, c);
    }
  }

  lemma {:induction false} ElementsWithin(t: Type, base: nat, k: nat, c: Class)
    requires t.Array? && Regular(t) && base % 8 + Size(t) <= 8
    ensures HasLeaf(t, base, k, c) <==> base / 8 == k && HasLeaf(t, 0, 0, c)
    decreases t, 0, 0
  {
    var elem := t.elem;
    if HasLeaf(t, base, k, c) {
      var i := SomeElement(t, base, k, c);
      ElementWithin(t, i, base, k, c);
      assert ElementLeaf(elem, i, 0, 0, c);
    }
    if HasLeaf(t, 0, 0, c) {
      var i := SomeElement(t, 0, 0, c);
      ElementWithin(t, i, base, k, c);
    }
  }

  lemma {:induction false} ElementWithin(t: Type, i: nat, base: nat, k: nat, c: Class)
    requires t.Array? && Regular(t) && base % 8 + t.size <= 8 && i < Count(t.size, t.elem)
    ensures ElementLeaf(t.elem, i, base, k, c) <==> base / 8 == k && ElementLeaf(t.elem, i, 0, 0, c)
    decreases t.elem, 2
  {
    var at := At(i, t.elem);
    ElementInside(t.size, t.elem, i);
    PartWithin(t.elem, at, t.size, base, k, c);
    ElementLeafAt(t.elem, i, base, k, c, at);
    ElementLeafAt(t.elem, i, 0, 0, c, at);
  }

  lemma {:induction false} PartWithin(t: Type, off: nat, size: nat, base: nat, k: nat, c: Class)
    requires Regular(t) && off + Size(t) <= size && base % 8 + size <= 8
    ensures HasLeaf(t, base + off, k, c) <==> base / 8 == k && HasLeaf(t, 0 + off, 0, c)
    decreases t, 1
  {
    RegularSize(t);
    SameEightbyte(base, off, Size(t), size);
    LeafWithin(t, base + off, k, c);
    LeafWithin(t, 0 + off, 0, c);
  }

  lemma SameEightbyte(base: nat, off: nat, n: nat, size: nat)
    requires n > 0 && off + n <= size && base % 8 + size <= 8
    ensures (base + off) / 8 == base / 8 && (base + off) % 8 + n <= 8 && off / 8 == 0 && off % 8 + n <= 8
  {
  }

  // ---------------------------------------------------------------- the theorem

  /**
   What the classification sees of a member: from eightbyte 1 on only its first eightbyte,
   and in eightbyte 0 its own eightbytes, wherever in the eightbyte it starts.
   */
  ghost predicate Seen(m: Member, k: nat, c: Class) {
    if m.offset / 8 >= 1 then k == 1 && HasLeaf(m.typ, 0, 0, c) else HasLeaf(m.typ, 0, k, c)
  }

  /** Some of the first n members is seen in eightbyte k. */
  ghost predicate MembersSeen(t: Type, n: nat, k: nat, c: Class)
    requires t.Struct? && n <= |t.members|
  {
    exists i :: 0 <= i < n && Seen(t.members[i], k, c)
  }

  /** Named members of regular types, wherever they lie. */
  ghost predicate RegularMembers(t: Type) {
    t.Struct? && forall i :: 0 <= i < |t.members| ==> Regular(t.members[i].typ) && t.members[i].name != ""
  }

  lemma MergeLargest(i: bool, s: bool, i': bool, s': bool)
    ensures Merge(Largest(i, s), Largest(i', s')) == Largest(i || i', s || s')
  {
  }

  /** A placed member is seen where its scalars are. */
  lemma MemberLeaves(m: Member, size: nat, k: nat, c: Class)
    requires Regular(m.typ) && Placed(m, size) && size <= 16 && k <= 1
    ensures MemberLeaf(m, 0, k, c) <==> Seen(m, k, c)
  {
    RegularSize(m.typ);
    if m.offset % 8 == 0 {
      var d := m.offset / 8;
      assert m.offset == 0 + 8 * d;
      LeafShift(m.typ, 0, d, k, c);
      assert 0 + m.offset == 0 + 8 * d;
    } else {
      LeafWithin(m.typ, 0 + m.offset, k, c);
      if k == 1 && HasLeaf(m.typ, 0, 1, c) {
        LeafInside(m.typ, 0, 1, c);
      }
    }
  }

  /** One member: merging its classes adds what is seen of it. */
  lemma AddSeen(m: Member, li: bool, ls: bool, hi: bool, hs: bool)
    requires m.name != ""
    ensures AddMember(Classes(Largest(li, ls), Largest(hi, hs)), m, Classes(Maximum(m.typ, 0), Maximum(m.typ, 1))) ==
            Classes(Largest(li || Seen(m, 0, Integer), ls || Seen(m, 0, SSE)),
                    Largest(hi || Seen(m, 1, Integer), hs || Seen(m, 1, SSE)))
  {
    var i0, s0 := HasLeaf(m.typ, 0, 0, Integer), HasLeaf(m.typ, 0, 0, SSE);
    MergeLargest(li, ls, i0, s0);
    MergeLargest(hi, hs, i0, s0);
    MergeLargest(hi, hs, HasLeaf(m.typ, 0, 1, Integer), HasLeaf(m.typ, 0, 1, SSE));
  }

  /** For members of regular types the classes are the maximum over what is seen of them. */
  lemma {:induction false} MembersMaximum(t: Type, n: nat)
    requires RegularMembers(t) && n <= |t.members|
    ensures ClassifyMembers(t, n) ==
            Classes(Largest(MembersSeen(t, n, 0, Integer), MembersSeen(t, n, 0, SSE)),
                    Largest(MembersSeen(t, n, 1, Integer), MembersSeen(t, n, 1, SSE)))
    decreases t, n
  {
    if n > 0 {
      var m := t.members[n - 1];
      assert Regular(m.typ) && m.name != "";
      MembersMaximum(t, n - 1);
      ClassifyIsMaximum(m.typ);
      AddSeen(m, MembersSeen(t, n - 1, 0, Integer), MembersSeen(t, n - 1, 0, SSE),
              MembersSeen(t, n - 1, 1, Integer), MembersSeen(t, n - 1, 1, SSE));
      OneMoreMember(t, n, 0, Integer);
      OneMoreMember(t, n, 0, SSE);
      OneMoreMember(t, n, 1, Integer);
      OneMoreMember(t, n, 1, SSE);
    }
  }

  lemma OneMoreMember(t: Type, n: nat, k: nat, c: Class)
    requires t.Struct? && 0 < n <= |t.members|
    ensures MembersSeen(t, n, k, c) <==> MembersSeen(t, n - 1, k, c) || Seen(t.members[n - 1], k, c)
  {
    if MembersSeen(t, n - 1, k, c) {
      var i :| 0 <= i < n - 1 && Seen(t.members[i], k, c);
      assert 0 <= i < n && Seen(t.members[i], k, c);
    }
  }

  /** In a regular struct every member is seen where its scalars are. */
  lemma SeenIsLeaf(t: Type, k: nat, c: Class)
    requires t.Struct? && Regular(t) && k <= 1
    ensures MembersSeen(t, |t.members|, k, c) <==> HasLeaf(t, 0, k, c)
  {
    forall i | 0 <= i < |t.members|
      ensures MemberLeaf(t.members[i], 0, k, c) <==> Seen(t.members[i], k, c)
    {
      MemberLeaves(t.members[i], t.size, k, c);
    }
  }

  /** Element i of an array lies in one eightbyte. */
  lemma ElementAt(t: Type, i: nat, k: nat, c: Class)
    requires t.Array? && Regular(t) && i < Count(t.size, t.elem)
    ensures ElementLeaf(t.elem, i, 0, k, c) <==> At(i, t.elem) / 8 == k && HasLeaf(t.elem, 0, 0, c)
  {
    ElementInside(t.size, t.elem, i);
    LeafWithin(t.elem, 0 + At(i, t.elem), k, c);
  }

  /** The leaves of an array: those of its element, in each eightbyte it reaches. */
  lemma ArrayLeaves(t: Type, k: nat, c: Class)
    requires t.Array? && Regular(t) && k <= 1
    ensures HasLeaf(t, 0, k, c) <==> (k == 0 || t.size > 8) && HasLeaf(t.elem, 0, 0, c)
  {
    if HasLeaf(t, 0, k, c) {
      var i := SomeElement(t, 0, k, c);
      ElementAt(t, i, k, c);
      ElementInside(t.size, t.elem, i);
    }
    if (k == 0 || t.size > 8) && HasLeaf(t.elem, 0, 0, c) {
      var first := if k == 0 then 0 else EighthByte(Size(t.elem));
      FirstElement(t.size, t.elem, k);
      ElementAt(t, first, k, c);
    }
  }

  /** The index of the element at offset 8. */
  function EighthByte(e: nat): nat {
    if e == 1 then 8 else if e == 2 then 4 else if e == 4 then 2 else 1
  }

  lemma FirstElement(size: nat, elem: Type, k: nat)
    requires Size(elem) in {1, 2, 4, 8} && At(Count(size, elem), elem) == size && Size(elem) <= size && k <= 1
    ensures k == 0 ==> 0 < Count(size, elem) && At(0, elem) / 8 == 0
    ensures k == 1 && size > 8 ==> EighthByte(Size(elem)) < Count(size, elem) && At(EighthByte(Size(elem)), elem) / 8 == 1
  {
    var i := EighthByte(Size(elem));
    AtIs(i, elem, Size(elem));
    if Count(size, elem) <= i {
      AtMonotone(Count(size, elem), i, elem);
    }
  }

  /** The recursive classification is the maximum over the leaves, eightbyte by eightbyte. */
  lemma {:induction false} ClassifyIsMaximum(t: Type)
    requires Regular(t)
    ensures Classify(t) == Classes(Maximum(t, 0), Maximum(t, 1))
    decreases t, if t.Struct? then |t.members| + 1 else 0
  {
    match t
    case Plain(_) =>
    case Floating(_) =>
    case Qualified(inner) => ClassifyIsMaximum(inner);
    case Struct(_, members) =>
      MembersMaximum(t, |members|);
      SeenIsLeaf(t, 0, Integer);
      SeenIsLeaf(t, 0, SSE);
      SeenIsLeaf(t, 1, Integer);
      SeenIsLeaf(t, 1, SSE);
    case Array(size, elem) =>
      ClassifyIsMaximum(elem);
      ArrayLeaves(t, 0, Integer);
      ArrayLeaves(t, 0, SSE);
      ArrayLeaves(t, 1, Integer);
      ArrayLeaves(t, 1, SSE);
      NoHigh(elem, Integer);
      NoHigh(elem, SSE);
  }

  lemma NoHigh(t: Type, c: Class)
    requires Regular(t) && Size(t) <= 8
    ensures !HasLeaf(t, 0, 1, c)
  {
    if HasLeaf(t, 0, 1, c) {
      LeafInside(t, 0, 1, c);
    }
  }

  /** The order of the members does not matter. */
  lemma MemberOrderIrrelevant(s: Type, t: Type)
    requires s.Struct? && t.Struct? && Regular(s) && Regular(t)
    requires forall m :: m in s.members <==> m in t.members
    ensures Classify(s) == Classify(t)
  {
    ClassifyIsMaximum(s);
    ClassifyIsMaximum(t);
    forall k: nat, c: Class
      ensures HasLeaf(s, 0, k, c) <==> HasLeaf(t, 0, k, c)
    {
      SameLeaves(s, t, k, c);
      SameLeaves(t, s, k, c);
    }
  }

  lemma SameLeaves(s: Type, t: Type, k: nat, c: Class)
    requires s.Struct? && t.Struct? && forall m :: m in s.members ==> m in t.members
    ensures HasLeaf(s, 0, k, c) ==> HasLeaf(t, 0, k, c)
  {
    if HasLeaf(s, 0, k, c) {
      var i :| 0 <= i < |s.members| && MemberLeaf(s.members[i], 0, k, c);
      assert s.members[i] in t.members;
      var j :| 0 <= j < |t.members| && t.members[j] == s.members[i];
      assert MemberLeaf(t.members[j], 0, k, c);
    }
  }

  /** A member across the eightbyte boundary that is small enough for one eightbyte: it is seen in the first as a whole. */
  predicate Straddling(m: Member, size: nat) {
    m.name != "" && 0 < m.offset < 8 && Size(m.typ) <= 8 && 8 < m.offset + Size(m.typ) <= size
  }

  /** A struct whose members are each placed or straddling. */
  ghost predicate Mixed(t: Type) {
    && t.Struct? && 1 <= t.size <= 16
    && forall i :: 0 <= i < |t.members| ==> Regular(t.members[i].typ) && (Placed(t.members[i], t.size) || Straddling(t.members[i], t.size))
  }

  /** A placed member, or a straddling one, has a scalar of the class in eightbyte k. */
  ghost predicate PartLeaf(t: Type, placed: bool, k: nat, c: Class)
    requires t.Struct?
  {
    exists i :: 0 <= i < |t.members| && Placed(t.members[i], t.size) == placed && MemberLeaf(t.members[i], 0, k, c)
  }

  /** The largest class that the placed members, or the straddling ones, have in eightbyte k. */
  ghost function PartMaximum(t: Type, placed: bool, k: nat): Class
    requires t.Struct?
  {
    Largest(PartLeaf(t, placed, k, Integer), PartLeaf(t, placed, k, SSE))
  }

  /** A straddling member is seen in eightbyte 0 for all its scalars, and not in eightbyte 1. */
  lemma StraddlerSeen(m: Member, size: nat, c: Class)
    requires Regular(m.typ) && Straddling(m, size)
    ensures Seen(m, 0, c) <==> MemberLeaf(m, 0, 0, c) || MemberLeaf(m, 0, 1, c)
    ensures !Seen(m, 1, c)
  {
    NoHigh(m.typ, c);
    LeafAnywhere(m.typ, 0 + m.offset, c);
  }

  /** What is seen in a mixed struct, and what is there. */
  lemma MixedSeen(t: Type, c: Class)
    requires Mixed(t)
    ensures MembersSeen(t, |t.members|, 0, c) <==> HasLeaf(t, 0, 0, c) || PartLeaf(t, false, 1, c)
    ensures MembersSeen(t, |t.members|, 1, c) <==> PartLeaf(t, true, 1, c)
    ensures HasLeaf(t, 0, 1, c) <==> PartLeaf(t, true, 1, c) || PartLeaf(t, false, 1, c)
  {
    forall i | 0 <= i < |t.members|
      ensures Seen(t.members[i], 0, c) <==>
              MemberLeaf(t.members[i], 0, 0, c) || (!Placed(t.members[i], t.size) && MemberLeaf(t.members[i], 0, 1, c))
      ensures Seen(t.members[i], 1, c) <==> Placed(t.members[i], t.size) && MemberLeaf(t.members[i], 0, 1, c)
    {
      if Placed(t.members[i], t.size) {
        MemberLeaves(t.members[i], t.size, 0, c);
        MemberLeaves(t.members[i], t.size, 1, c);
      } else {
        StraddlerSeen(t.members[i], t.size, c);
      }
    }
  }

  /** A class that another one already covers. */
  predicate AddsNothing(x: Class, a: Class) {
    Merge(a, x) == a
  }

  /**
   A struct of placed and straddling members. What the straddling ones have in the second
   eightbyte is counted to the first one: the classes are right if and only if its largest
   class adds nothing to what the placed members give in the second eightbyte, and nothing to
   what is in the first.
   */
  lemma StraddlersMissed(t: Type)
    requires Mixed(t)
    ensures
      var x := PartMaximum(t, false, 1);
      Classify(t) == Classes(Maximum(t, 0), Maximum(t, 1)) <==> AddsNothing(x, PartMaximum(t, true, 1)) && AddsNothing(x, Maximum(t, 0))
  {
    MembersMaximum(t, |t.members|);
    MixedSeen(t, Integer);
    MixedSeen(t, SSE);
    MergeLargest(HasLeaf(t, 0, 0, Integer), HasLeaf(t, 0, 0, SSE), PartLeaf(t, false, 1, Integer), PartLeaf(t, false, 1, SSE));
    MergeLargest(PartLeaf(t, true, 1, Integer), PartLeaf(t, true, 1, SSE), PartLeaf(t, false, 1, Integer), PartLeaf(t, false, 1, SSE));
  }

  /** The scalars of a small type lie in the eightbyte where it starts or in the next one. */
  lemma {:induction false} LeafAnywhere(t: Type, base: nat, c: Class)
    requires Regular(t) && Size(t) <= 8
    ensures HasLeaf(t, 0, 0, c) <==> HasLeaf(t, base, base / 8, c) || HasLeaf(t, base, base / 8 + 1, c)
    decreases t, 0
  {
    match t
    case Plain(_) =>
    case Floating(_) =>
    case Qualified(inner) => LeafAnywhere(inner, base, c);
    case Struct(_, _) => MembersAnywhere(t, base, c);
    case Array(_, _) => ElementsAnywhere(t, base, c);
  }

  lemma {:induction false} MembersAnywhere(t: Type, base: nat, c: Class)
    requires t.Struct? && Regular(t) && t.size <= 8
    ensures HasLeaf(t, 0, 0, c) <==> HasLeaf(t, base, base / 8, c) || HasLeaf(t, base, base / 8 + 1, c)
    decreases t, 0, 0
  {
    forall i | 0 <= i < |t.members|
      ensures MemberLeaf(t.members[i], 0, 0, c) <==> MemberLeaf(t.members[i], base, base / 8, c) || MemberLeaf(t.members[i], base, base / 8 + 1, c)
    {
      PartAnywhere(t.members[i].typ, t.members[i].offset, t.size, base, base / 8, c);
    }
  }

  lemma {:induction false} ElementsAnywhere(t: Type, base: nat, c: Class)
    requires t.Array? && Regular(t) && t.size <= 8
    ensures HasLeaf(t, 0, 0, c) <==> HasLeaf(t, base, base / 8, c) || HasLeaf(t, base, base / 8 + 1, c)
    decreases t, 0, 0
  {
    ElementsForth(t, base, base / 8, c);
    ElementsBack(t, base, base / 8, base / 8, c);
    ElementsBack(t, base, base / 8 + 1, base / 8, c);
  }

  lemma {:induction false} ElementsForth(t: Type, base: nat, first: nat, c: Class)
    requires t.Array? && Regular(t) && t.size <= 8 && first == base / 8
    ensures HasLeaf(t, 0, 0, c) ==> HasLeaf(t, base, first, c) || HasLeaf(t, base, first + 1, c)
    decreases t.elem, 3
  {
    if HasLeaf(t, 0, 0, c) {
      var i := SomeElement(t, 0, 0, c);
      ElementInside(t.size, t.elem, i);
      ElementAnywhere(t.elem, At(i, t.elem), t.size, i, base, first, c);
    }
  }

  lemma {:induction false} ElementsBack(t: Type, base: nat, k: nat, first: nat, c: Class)
    requires t.Array? && Regular(t) && t.size <= 8 && first == base / 8 && (k == first || k == first + 1)
    ensures HasLeaf(t, base, k, c) ==> HasLeaf(t, 0, 0, c)
    decreases t.elem, 3
  {
    if HasLeaf(t, base, k, c) {
      var i := SomeElement(t, base, k, c);
      ElementInside(t.size, t.elem, i);
      ElementAnywhere(t.elem, At(i, t.elem), t.size, i, base, first, c);
      assert ElementLeaf(t.elem, i, 0, 0, c);
    }
  }

  lemma {:induction false} ElementAnywhere(elem: Type, at: nat, size: nat, i: nat, base: nat, k: nat, c: Class)
    requires Regular(elem) && at == At(i, elem) && at + Size(elem) <= size <= 8 && k == base / 8
    ensures ElementLeaf(elem, i, 0, 0, c) <==> ElementLeaf(elem, i, base, k, c) || ElementLeaf(elem, i, base, k + 1, c)
    decreases elem, 2
  {
    PartAnywhere(elem, at, size, base, k, c);
    ElementLeafAt(elem, i, 0, 0, c, at);
    ElementLeafAt(elem, i, base, k, c, at);
    ElementLeafAt(elem, i, base, k + 1, c, at);
  }

  lemma {:induction false} PartAnywhere(t: Type, off: nat, size: nat, base: nat, k: nat, c: Class)
    requires Regular(t) && off + Size(t) <= size <= 8 && k == base / 8
    ensures HasLeaf(t, 0 + off, 0, c) <==> HasLeaf(t, base + off, k, c) || HasLeaf(t, base + off, k + 1, c)
    decreases t, 1
  {
    RegularSize(t);
    LeafWithin(t, 0 + off, 0, c);
    LeafAnywhere(t, base + off, c);
    if (base + off) / 8 == k + 1 && HasLeaf(t, base + off, k + 2, c) {
      LeafInside(t, base + off, k + 2, c);
    }
    if (base + off) / 8 == k + 1 && HasLeaf(t, base + off, k, c) {
      LeafInside(t, base + off, k, c);
    }
  }

  lemma ElementLeafAt(elem: Type, i: nat, base: nat, k: nat, c: Class, at: nat)
    requires at == At(i, elem)
    ensures ElementLeaf(elem, i, base, k, c) <==> HasLeaf(elem, base + at, k, c)
  {
  }

  /** A nested struct across the boundary: its second float is missed. With another float behind it, it is not. */
  lemma CrossingIsMissed()
    ensures
      var pair := Struct(8, [Member("x", 0, Floating(4)), Member("y", 4, Floating(4))]);
      var n, p, q := Member("n", 0, Plain(4)), Member("p", 4, pair), Member("q", 12, Floating(4));
      && Straddling(p, 12) && Classify(Struct(12, [n, p])).hi == NoClass && HasLeaf(Struct(12, [n, p]), 0, 1, SSE)
      && Straddling(p, 16) && Classify(Struct(16, [n, p, q])) == Classes(Integer, SSE)
  {
    var pair := Struct(8, [Member("x", 0, Floating(4)), Member("y", 4, Floating(4))]);
    var n, p, q := Member("n", 0, Plain(4)), Member("p", 4, pair), Member("q", 12, Floating(4));
    var outer, full := Struct(12, [n, p]), Struct(16, [n, p, q]);
    assert ClassifyMembers(pair, 1) == Classes(SSE, NoClass);
    assert Classify(pair) == Classes(SSE, NoClass);
    assert ClassifyMembers(outer, 1) == Classes(Integer, NoClass);
    assert ClassifyMembers(outer, 2) == Classes(Integer, NoClass);
    assert MemberLeaf(pair.members[1], 4, 1, SSE);
    assert MemberLeaf(outer.members[1], 0, 1, SSE);
    assert ClassifyMembers(full, 1) == Classes(Integer, NoClass);
    assert ClassifyMembers(full, 2) == Classes(Integer, NoClass);
    assert ClassifyMembers(full, 3) == Classes(Integer, SSE);
  }
}
