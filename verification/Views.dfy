/** Values and their two representations: copied, as arrays of values owned by the library, and
    referenced, as a pointer into the caller's packed image. Both are read through
    adiak_get_subval, and both must show the same tree. */
module Views {
  import opened AdiakTypes
  import opened CHeap
  import opened Layout

  /** A floating-point number by its bytes. Storing a float widens it to a double; what number that
      is does not matter here. */
  datatype Number = Widened(float: seq<Byte>) | Plain(double: seq<Byte>)

  /** adiak_value_t. The pointer member is split by what it points to: a block of the heap, the
      caller's memory, or an array of values that the library owns (the block and its contents). */
  datatype Value =
    | VLong(long: int)
    | VInt(i: int)
    | VLongLong(longlong: int)
    | VDouble(number: Number)
    | VPtr(p: nat)
    | VRef(a: nat)
    | VSub(arr: nat, elems: seq<Value>)

  /** What a value means to a reader. */
  datatype Tree =
    | TInt(i: int)
    | TReal(number: Number)
    | TText(s: string)
    | TTime(sec: int, usec: int)
    | TNode(kids: seq<Tree>)

  type Objs = map<nat, Obj>

  // ---------------------------------------------------------------- what an image means

  /** The meaning of a scalar at address a. None if it is a pointer to nothing readable. */
  function DecodeScalar(objs: Objs, mem: seq<Byte>, t: DType, a: nat): Option<Tree> {
    if t.tag.Double? then
      Some(TReal(
        if t.numBytes == SIZEOF_FLOAT then Widened(Bytes(mem, a, SIZEOF_FLOAT))
        else Plain(Bytes(mem, a, SIZEOF_DOUBLE))))
    else if t.tag.Timeval? || IsText(t.tag) then PointedTo(objs, t.tag, LittleEndian(Bytes(mem, a, SIZEOF_POINTER)))
    else Some(TInt(TwosComplement(Bytes(mem, a, t.numBytes))))
  }

  function PointedTo(objs: Objs, tag: Tag, p: nat): Option<Tree> {
    if p in objs && objs[p].Text? && IsText(tag) then Some(TText(objs[p].s))
    else if p in objs && objs[p].Time? && tag.Timeval? then Some(TTime(objs[p].sec, objs[p].usec))
    else None
  }

  function Cons(x: Option<Tree>, xs: Option<seq<Tree>>): Option<seq<Tree>> {
    if x.Some? && xs.Some? then Some([x.value] + xs.value) else None
  }

  function Node(kids: Option<seq<Tree>>): Option<Tree> {
    if kids.Some? then Some(TNode(kids.value)) else None
  }

  /** The meaning of the packed image of a t at address a. References play no part in it. */
  function Decode(objs: Objs, mem: seq<Byte>, t: DType, a: nat): Option<Tree>
    decreases t, NumSubvals(t) + 1
  {
    if IsContainer(t.tag) then Node(DecodeFrom(objs, mem, t, 0, a)) else DecodeScalar(objs, mem, t, a)
  }

  function DecodeFrom(objs: Objs, mem: seq<Byte>, t: DType, i: nat, a: nat): Option<seq<Tree>>
    decreases t, NumSubvals(t) - i
  {
    if !HasComponent(t, i) then Some([])
    else Cons(Decode(objs, mem, Component(t, i), a + Offset(t, i)), DecodeFrom(objs, mem, t, i + 1, a))
  }

  // ---------------------------------------------------------------- adiak_get_subval

  /** A scalar read out of the image into a value. */
  function ReadScalar(mem: seq<Byte>, t: DType, a: nat): Value {
    match t.tag
    case Long | ULong | Date => VLong(TwosComplement(Bytes(mem, a, SIZEOF_LONG)))
    case LongLong | ULongLong => VLongLong(TwosComplement(Bytes(mem, a, SIZEOF_LONG_LONG)))
    case Int | UInt =>
      VInt(TwosComplement(Bytes(mem, a, if t.numBytes == 1 then 1 else if t.numBytes == 2 then 2 else SIZEOF_INT)))
    case Double =>
      VDouble(if t.numBytes == 4 then Widened(Bytes(mem, a, SIZEOF_FLOAT)) else Plain(Bytes(mem, a, SIZEOF_DOUBLE)))
    case _ => VPtr(LittleEndian(Bytes(mem, a, SIZEOF_POINTER)))
  }

  /** What adiak_get_subval makes of something of type t at address a. */
  function ReadAt(mem: seq<Byte>, t: DType, a: nat): Value {
    if IsContainer(t.tag) then VRef(a) else ReadScalar(mem, t, a)
  }

  /** adiak_get_subval: the value of an element, whose type is that of the component; None for the
      error return. Reading past the end of a copied array, which C leaves undefined, is an error
      here. */
  function Subval(mem: seq<Byte>, t: DType, v: Value, elem: nat): (r: Option<Value>)
    requires HasComponent(t, elem)
  {
    if t.isReference then
      if elem < t.numRefElements && v.VRef? then Some(ReadAt(mem, Component(t, elem), v.a + Offset(t, elem))) else None
    else
      if elem < t.numElements && v.VSub? && elem < |v.elems| then Some(v.elems[elem]) else None
  }

  /** adiak_get_subval as it computes its answer. On an error the type is NULL. */
  method GetSubval(mem: seq<Byte>, t: DType, val: Value, elem: int)
    returns (ok: bool, subtype: Option<DType>, subval: Value)
    requires Shaped(t)
    requires !t.isReference && 0 <= elem < t.numElements ==> val.VSub? && elem < |val.elems|
    requires t.isReference && 0 <= elem < t.numRefElements ==> val.VRef? && val.a + Size(t) <= |mem|
    ensures ok <==> 0 <= elem < if t.isReference then t.numRefElements else t.numElements
    ensures ok ==>
        HasComponent(t, elem) && subtype == Some(Component(t, elem)) && Subval(mem, t, val, elem) == Some(subval)
    ensures !ok ==> subtype == None && subval == VPtr(0)
  {
    ok, subtype, subval := false, None, VPtr(0);
    if elem < 0 {
      return;
    }
    if !t.isReference {
      if elem >= t.numElements {
        return;
      }
      subtype := Some(if t.tag.Tuple? then t.subtype[elem] else t.subtype[0]);
      return true, subtype, val.elems[elem];
    }
    if elem >= t.numRefElements {
      return;
    }
    var bytes := 0;
    if t.tag.Tuple? {
      for n := 0 to elem
        invariant bytes == Offset(t, n)
      {
        var s := CalcSize(t.subtype[n]);
        bytes := bytes + s;
      }
      subtype := Some(t.subtype[elem]);
    } else {
      var s := CalcSize(t.subtype[0]);
      bytes := elem * s;
      OffsetIsMultiple(t, elem);
      subtype := Some(t.subtype[0]);
    }
    subval := ReadAt(mem, subtype.value, val.a + bytes);
    ok := true;
  }

  // ---------------------------------------------------------------- walking a value

  /** The number that v_int shows of a number of eight bytes: its low four bytes. */
  function LowInt(n: int): int {
    var low := n % 0x1_0000_0000;
    if low >= 0x8000_0000 then low - 0x1_0000_0000 else low
  }

  /** What v_long and v_longlong show, which are the same eight bytes; None if not all of them are set. */
  function AsLong(v: Value): Option<int> {
    if v.VLong? then Some(v.long) else if v.VLongLong? then Some(v.longlong) else None
  }

  /** What v_int shows: it shares the low bytes of the longer members. */
  function AsInt(v: Value): Option<int> {
    if v.VInt? then Some(v.i) else if AsLong(v).Some? then Some(LowInt(AsLong(v).value)) else None
  }

  function Integral(n: Option<int>): Option<Tree> {
    if n.Some? then Some(TInt(n.value)) else None
  }

  /** A scalar value as its reader takes it, by the member of the union its type selects. */
  function WalkScalar(objs: Objs, t: DType, v: Value): Option<Tree> {
    match t.tag
    case Long | ULong | Date | LongLong | ULongLong => Integral(AsLong(v))
    case Int | UInt => Integral(AsInt(v))
    case Double => if v.VDouble? then Some(TReal(v.number)) else None
    case _ => if v.VPtr? then PointedTo(objs, t.tag, v.p) else None
  }

  /** The tree that a reader sees who visits every element with adiak_num_subvals and
      adiak_get_subval. None if one of the visits fails. */
  function Walk(objs: Objs, mem: seq<Byte>, t: DType, v: Value): Option<Tree>
    decreases t, NumSubvals(t) + 1
  {
    if IsContainer(t.tag) then Node(WalkFrom(objs, mem, t, v, 0)) else WalkScalar(objs, t, v)
  }

  function WalkFrom(objs: Objs, mem: seq<Byte>, t: DType, v: Value, i: nat): Option<seq<Tree>>
    decreases t, NumSubvals(t) - i
  {
    if !HasComponent(t, i) then Some([])
    else
      var e := Subval(mem, t, v, i);
      if e.None? then None else Cons(Walk(objs, mem, Component(t, i), e.value), WalkFrom(objs, mem, t, v, i + 1))
  }

  // ---------------------------------------------------------------- zero copy

  /** Two types that describe the same image: they differ at most in what they take by reference. */
  predicate SameImage(t: DType, u: DType) {
    && t.tag == u.tag && t.numBytes == u.numBytes && NumSubvals(t) == NumSubvals(u) && |t.subtype| == |u.subtype|
    && (forall i :: 0 <= i < |t.subtype| ==> SameImage(t.subtype[i], u.subtype[i]))
  }

  lemma SameComponent(t: DType, u: DType, i: nat)
    requires HasComponent(t, i) && SameImage(t, u)
    ensures HasComponent(u, i) && SameImage(Component(t, i), Component(u, i))
  {
  }

  lemma {:induction false} SameOffset(t: DType, u: DType, i: nat)
    requires SameImage(t, u)
    ensures Offset(t, i) == Offset(u, i)
    decreases t, i, 0
  {
    if i > 0 && HasComponent(t, i - 1) {
      SameOffset(t, u, i - 1);
      SameComponent(t, u, i - 1);
      SameSize(Component(t, i - 1), Component(u, i - 1));
    }
  }

  lemma {:induction false} SameSize(t: DType, u: DType)
    requires SameImage(t, u)
    ensures Size(t) == Size(u)
    decreases t, NumSubvals(t), 1
  {
    if IsContainer(t.tag) {
      SameOffset(t, u, NumSubvals(t));
    }
  }

  /** An image means the same whatever is taken by reference. */
  lemma {:induction false} SameDecode(objs: Objs, mem: seq<Byte>, t: DType, u: DType, a: nat)
    requires SameImage(t, u)
    ensures Decode(objs, mem, t, a) == Decode(objs, mem, u, a)
    decreases t, NumSubvals(t) + 1
  {
    if IsContainer(t.tag) {
      SameDecodeFrom(objs, mem, t, u, 0, a);
    }
  }

  lemma {:induction false} SameDecodeFrom(objs: Objs, mem: seq<Byte>, t: DType, u: DType, i: nat, a: nat)
    requires SameImage(t, u)
    ensures DecodeFrom(objs, mem, t, i, a) == DecodeFrom(objs, mem, u, i, a)
    decreases t, NumSubvals(t) - i
  {
    if HasComponent(t, i) {
      SameOffset(t, u, i);
      SameComponent(t, u, i);
      SameDecode(objs, mem, Component(t, i), Component(u, i), a + Offset(t, i));
      SameDecodeFrom(objs, mem, t, u, i + 1, a);
    }
  }

  /** What adiak_get_subval hands out for a scalar in the image means what the image means. */
  lemma ScalarReadsRight(objs: Objs, mem: seq<Byte>, t: DType, a: nat)
    requires IsStatic(t)
    ensures WalkScalar(objs, t, ReadScalar(mem, t, a)) == DecodeScalar(objs, mem, t, a)
  {
  }

  /** Every container in the type is a reference; what the parser guarantees below an '&'. */
  predicate AllReferences(t: DType) {
    if IsContainer(t.tag) then
      t.isReference && t.numElements == 0 && forall i :: 0 <= i < |t.subtype| ==> AllReferences(t.subtype[i])
    else IsStatic(t)
  }

  lemma {:induction false} ReferenceIsAllReferences(t: DType)
    requires WellFormed(t) && (IsContainer(t.tag) ==> t.isReference)
    ensures AllReferences(t)
  {
    if IsContainer(t.tag) {
      forall i | 0 <= i < |t.subtype| ensures AllReferences(t.subtype[i]) {
        ReferenceIsAllReferences(t.subtype[i]);
      }
    }
  }

  lemma ReferenceComponent(t: DType, i: nat)
    requires HasComponent(t, i) && AllReferences(t)
    ensures t.isReference && i < t.numRefElements && AllReferences(Component(t, i))
  {
  }

  lemma {:induction false} WalkOfReference(objs: Objs, mem: seq<Byte>, t: DType, a: nat)
    requires AllReferences(t)
    ensures Walk(objs, mem, t, ReadAt(mem, t, a)) == Decode(objs, mem, t, a)
    decreases t, NumSubvals(t) + 1
  {
    if IsContainer(t.tag) {
      WalkOfReferenceFrom(objs, mem, t, 0, a);
    } else {
      ScalarReadsRight(objs, mem, t, a);
    }
  }

  lemma {:induction false} WalkOfReferenceFrom(objs: Objs, mem: seq<Byte>, t: DType, i: nat, a: nat)
    requires AllReferences(t)
    ensures WalkFrom(objs, mem, t, VRef(a), i) == DecodeFrom(objs, mem, t, i, a)
    decreases t, NumSubvals(t) - i
  {
    if HasComponent(t, i) {
      ReferenceComponent(t, i);
      var c, at := Component(t, i), a + Offset(t, i);
      assert Subval(mem, t, VRef(a), i) == Some(ReadAt(mem, c, at));
      WalkOfReference(objs, mem, c, at);
      WalkOfReferenceFrom(objs, mem, t, i + 1, a);
    }
  }

  /** The referenced view: walking a reference shows exactly what the image means, which is the
      same as without the references. */
  lemma ReferenceWalk(objs: Objs, mem: seq<Byte>, t: DType, u: DType, a: nat)
    requires WellFormed(t) && IsContainer(t.tag) && t.isReference && SameImage(t, u)
    ensures Walk(objs, mem, t, VRef(a)) == Decode(objs, mem, u, a)
  {
    ReferenceIsAllReferences(t);
    WalkOfReference(objs, mem, t, a);
    SameDecode(objs, mem, t, u, a);
  }

  // ---------------------------------------------------------------- what an image depends on

  /** Two memories hold the same bytes from lo up to hi. */
  ghost predicate SameBytes(mem: seq<Byte>, other: seq<Byte>, lo: nat, hi: nat) {
    lo <= hi <= |mem| && hi <= |other| && forall k :: lo <= k < hi ==> mem[k] == other[k]
  }

  lemma SameBytesWithin(mem: seq<Byte>, other: seq<Byte>, lo: nat, hi: nat, a: nat, n: nat)
    requires SameBytes(mem, other, lo, hi) && lo <= a && a + n <= hi
    ensures SameBytes(mem, other, a, a + n) && Bytes(mem, a, n) == Bytes(other, a, n)
  {
    assert mem[a..a + n] == other[a..a + n];
  }

  /** No reading of an image leaves its bytes: what it means is settled by the Size(t) bytes from a
      on. */
  lemma {:induction false} DecodeIsLocal(objs: Objs, mem: seq<Byte>, other: seq<Byte>, t: DType, a: nat)
    requires Shaped(t) && SameBytes(mem, other, a, a + Size(t))
    ensures Decode(objs, mem, t, a) == Decode(objs, other, t, a)
    decreases t, NumSubvals(t) + 1
  {
    if IsContainer(t.tag) {
      DecodeFromIsLocal(objs, mem, other, t, 0, a);
    } else {
      SameBytesWithin(mem, other, a, a + t.numBytes, a, t.numBytes);
    }
  }

  lemma {:induction false} DecodeFromIsLocal(objs: Objs, mem: seq<Byte>, other: seq<Byte>, t: DType, i: nat, a: nat)
    requires IsContainer(t.tag) && Shaped(t) && SameBytes(mem, other, a, a + Size(t))
    ensures DecodeFrom(objs, mem, t, i, a) == DecodeFrom(objs, other, t, i, a)
    decreases t, NumSubvals(t) - i
  {
    if HasComponent(t, i) {
      ShapedComponent(t, i);
      OffsetWithin(t, i, NumSubvals(t));
      var c, at := Component(t, i), a + Offset(t, i);
      SameBytesWithin(mem, other, a, a + Size(t), at, Size(c));
      DecodeIsLocal(objs, mem, other, c, at);
      DecodeFromIsLocal(objs, mem, other, t, i + 1, a);
    }
  }
}
