/** copy_value and free_adiak_value of src/adiak.c: the deep copy of an image, the blocks it takes
    up, and their release. */
module DeepCopy {
  import opened AdiakTypes
  import opened CHeap
  import opened Layout
  import opened Views

  // ---------------------------------------------------------------- the blocks of a value

  /** The number of blocks that a value of type t owns. A reference owns nothing, a string or a
      struct timeval is one block, a container is an array before the blocks of its elements. */
  function ValueSpan(t: DType, v: Value): nat
    decreases t, |t.subtype| + NumSubvals(t) + 1
  {
    if t.isReference then 0
    else if IsContainer(t.tag) then (if v.VSub? then 1 + SpanOfElems(t, v.elems, t.numElements) else 0)
    else if IsText(t.tag) || t.tag.Timeval? then 1
    else 0
  }

  function SpanOfElems(t: DType, vs: seq<Value>, n: nat): nat
    decreases t, n
  {
    if n == 0 || n > |vs| || n > NumSubvals(t) || !HasComponent(t, n - 1) then 0
    else SpanOfElems(t, vs, n - 1) + ValueSpan(Component(t, n - 1), vs[n - 1])
  }

  /** The blocks of v are named from base on, in the order in which copy_value allocates them. */
  predicate Placed(t: DType, v: Value, base: nat)
    decreases t, |t.subtype| + NumSubvals(t) + 1
  {
    if t.isReference then true
    else if IsContainer(t.tag) then
      v.VSub? && v.arr == base && |v.elems| == t.numElements && PlacedElems(t, v.elems, t.numElements, base + 1)
    else if IsText(t.tag) || t.tag.Timeval? then v == VPtr(base)
    else true
  }

  predicate PlacedElems(t: DType, vs: seq<Value>, n: nat, base: nat)
    decreases t, n
  {
    n == 0 ||
    (&& n <= |vs| && n <= NumSubvals(t) && HasComponent(t, n - 1)
     && PlacedElems(t, vs, n - 1, base)
     && Placed(Component(t, n - 1), vs[n - 1], base + SpanOfElems(t, vs, n - 1)))
  }

  lemma {:induction false} ElemsAppend(t: DType, vs: seq<Value>, v: Value, n: nat, base: nat)
    requires n <= |vs|
    ensures SpanOfElems(t, vs + [v], n) == SpanOfElems(t, vs, n)
    ensures PlacedElems(t, vs, n, base) ==> PlacedElems(t, vs + [v], n, base)
    decreases n
  {
    if n > 0 {
      ElemsAppend(t, vs, v, n - 1, base);
    }
  }

  /** How many blocks a copied value of type t owns, whatever the value: the element counts are in the type. */
  function CopySpan(t: DType): nat
    decreases t, t.numElements + 1
  {
    if t.isReference then 0
    else if IsContainer(t.tag) then 1 + CopySpanOfFirst(t, t.numElements)
    else if IsText(t.tag) || t.tag.Timeval? then 1
    else 0
  }

  function CopySpanOfFirst(t: DType, n: nat): nat
    decreases t, n
  {
    if n == 0 || !HasComponent(t, n - 1) then 0 else CopySpanOfFirst(t, n - 1) + CopySpan(Component(t, n - 1))
  }

  lemma {:induction false} SpanOfPlaced(t: DType, v: Value, base: nat)
    requires Placed(t, v, base)
    ensures ValueSpan(t, v) == CopySpan(t)
    decreases t, |t.subtype| + NumSubvals(t) + 1
  {
    if !t.isReference && IsContainer(t.tag) {
      SpanOfPlacedElems(t, v.elems, t.numElements, base + 1);
    }
  }

  lemma {:induction false} SpanOfPlacedElems(t: DType, vs: seq<Value>, n: nat, base: nat)
    requires PlacedElems(t, vs, n, base)
    ensures SpanOfElems(t, vs, n) == CopySpanOfFirst(t, n)
    decreases t, n
  {
    if n > 0 {
      SpanOfPlacedElems(t, vs, n - 1, base);
      SpanOfPlaced(Component(t, n - 1), vs[n - 1], base + SpanOfElems(t, vs, n - 1));
    }
  }

  // ---------------------------------------------------------------- reading under a growing heap

  /** Everything that can be read through objs can be read through more. */
  predicate Extends(objs: Objs, more: Objs) {
    forall p :: p in objs ==> p in more && more[p] == objs[p]
  }

  lemma {:induction false} DecodeExtends(objs: Objs, more: Objs, mem: seq<Byte>, t: DType, a: nat)
    requires Extends(objs, more)
    ensures Decode(objs, mem, t, a).Some? ==> Decode(more, mem, t, a) == Decode(objs, mem, t, a)
    decreases t, NumSubvals(t) + 1
  {
    if IsContainer(t.tag) {
      DecodeExtendsFrom(objs, more, mem, t, 0, a);
    }
  }

  lemma {:induction false} DecodeExtendsFrom(objs: Objs, more: Objs, mem: seq<Byte>, t: DType, i: nat, a: nat)
    requires Extends(objs, more)
    ensures DecodeFrom(objs, mem, t, i, a).Some? ==> DecodeFrom(more, mem, t, i, a) == DecodeFrom(objs, mem, t, i, a)
    decreases t, NumSubvals(t) - i
  {
    if HasComponent(t, i) {
      DecodeExtends(objs, more, mem, Component(t, i), a + Offset(t, i));
      DecodeExtendsFrom(objs, more, mem, t, i + 1, a);
    }
  }

  lemma {:induction false} WalkExtends(objs: Objs, more: Objs, mem: seq<Byte>, t: DType, v: Value)
    requires Extends(objs, more)
    ensures Walk(objs, mem, t, v).Some? ==> Walk(more, mem, t, v) == Walk(objs, mem, t, v)
    decreases t, NumSubvals(t) + 1
  {
    if IsContainer(t.tag) {
      WalkExtendsFrom(objs, more, mem, t, v, 0);
    }
  }

  lemma {:induction false} WalkExtendsFrom(objs: Objs, more: Objs, mem: seq<Byte>, t: DType, v: Value, i: nat)
    requires Extends(objs, more)
    ensures WalkFrom(objs, mem, t, v, i).Some? ==> WalkFrom(more, mem, t, v, i) == WalkFrom(objs, mem, t, v, i)
    decreases t, NumSubvals(t) - i
  {
    if HasComponent(t, i) {
      var e := Subval(mem, t, v, i);
      if e.Some? {
        WalkExtends(objs, more, mem, Component(t, i), e.value);
        WalkExtendsFrom(objs, more, mem, t, v, i + 1);
      }
    }
  }

  /** The container has a subtype for each of its elements. */
  predicate HasAll(t: DType) {
    IsContainer(t.tag) && if t.tag.Tuple? then |t.subtype| == NumSubvals(t) else t.subtype != []
  }

  lemma {:induction false} DecodeLength(objs: Objs, mem: seq<Byte>, t: DType, i: nat, a: nat)
    requires HasAll(t) && i <= NumSubvals(t) && DecodeFrom(objs, mem, t, i, a).Some?
    ensures |DecodeFrom(objs, mem, t, i, a).value| == NumSubvals(t) - i
    decreases NumSubvals(t) - i
  {
    if i < NumSubvals(t) {
      DecodeLength(objs, mem, t, i + 1, a);
    }
  }

  /** The meanings of the components, one by one. */
  lemma {:induction false} DecodeEach(objs: Objs, mem: seq<Byte>, t: DType, i: nat, a: nat, k: nat)
    requires HasAll(t) && i <= k < NumSubvals(t) && DecodeFrom(objs, mem, t, i, a).Some?
    ensures |DecodeFrom(objs, mem, t, i, a).value| == NumSubvals(t) - i
    ensures Decode(objs, mem, Component(t, k), a + Offset(t, k)) == Some(DecodeFrom(objs, mem, t, i, a).value[k - i])
    decreases NumSubvals(t) - i
  {
    DecodeLength(objs, mem, t, i, a);
    if i < k {
      DecodeEach(objs, mem, t, i + 1, a, k);
    }
  }

  /** A copied array whose elements walk to the trees walks to the node of the trees. */
  lemma {:induction false} WalkEach(objs: Objs, mem: seq<Byte>, t: DType, v: Value, i: nat, trees: seq<Tree>)
    requires HasAll(t) && !t.isReference && NumSubvals(t) == t.numElements == |trees| && i <= |trees|
    requires v.VSub? && |v.elems| == |trees|
    requires forall k :: i <= k < |trees| ==> Walk(objs, mem, Component(t, k), v.elems[k]) == Some(trees[k])
    ensures WalkFrom(objs, mem, t, v, i) == Some(trees[i..])
    decreases |trees| - i
  {
    if i < |trees| {
      WalkEach(objs, mem, t, v, i + 1, trees);
      assert trees[i..] == [trees[i]] + trees[i + 1..];
      assert HasComponent(t, i) && Subval(mem, t, v, i) == Some(v.elems[i]);
      assert Walk(objs, mem, Component(t, i), v.elems[i]) == Some(trees[i]);
    }
  }

  // ---------------------------------------------------------------- copying

  /** What there is of objs in h, and what h has more than h0. */
  ghost function Since(objs: Objs, h0: Heap, h: Heap): Objs {
    map p | p in h.objs && (p in objs || h0.next <= p) :: h.objs[p]
  }

  /** What a copy promises: it owns the new blocks, and it means the same as the image for a reader who
      can see nothing but them and objs, where the image's pointers lead. */
  ghost predicate CopyOf(t: DType, mem: seq<Byte>, a: nat, objs: Objs, h0: Heap, v: Value, h: Heap) {
    && h0.GrowsTo(h) && h.next == h0.next + ValueSpan(t, v) && Placed(t, v, h0.next)
    && Walk(Since(objs, h0, h), mem, t, v) == Decode(objs, mem, t, a)
  }

  /** copy_value. The image must be all there and its pointers readable. */
  method CopyValue(t: DType, mem: seq<Byte>, a: nat, ghost objs: Objs, h0: Heap) returns (v: Value, n: int, h: Heap)
    requires WellFormed(t) && h0.Valid() && Extends(objs, h0.objs)
    requires a + Size(t) <= |mem| && Decode(objs, mem, t, a).Some?
    ensures n == Size(t) && CopyOf(t, mem, a, objs, h0, v, h)
    decreases t, 1, 0
  {
    if !IsContainer(t.tag) {
      v, n, h := CopyScalar(t, mem, a, objs, h0);
    } else if t.isReference {
      v, h := VRef(a), h0;
      n := CalcSize(t);
      ReferenceIsCopy(t, mem, a, objs, h0);
    } else {
      v, n, h := CopyContainer(t, mem, a, objs, h0);
    }
  }

  lemma ReferenceIsCopy(t: DType, mem: seq<Byte>, a: nat, objs: Objs, h0: Heap)
    requires WellFormed(t) && IsContainer(t.tag) && t.isReference && h0.Valid() && Extends(objs, h0.objs)
    requires Decode(objs, mem, t, a).Some?
    ensures CopyOf(t, mem, a, objs, h0, VRef(a), h0)
  {
    ReferenceIsAllReferences(t);
    WalkOfReference(objs, mem, t, a);
    WalkExtends(objs, Since(objs, h0, h0), mem, t, VRef(a));
  }

  /** The container branch of copy_value. */
  method CopyContainer(t: DType, mem: seq<Byte>, a: nat, ghost objs: Objs, h0: Heap) returns (v: Value, n: int, h: Heap)
    requires WellFormed(t) && IsContainer(t.tag) && !t.isReference
    requires h0.Valid() && Extends(objs, h0.objs) && a + Size(t) <= |mem| && Decode(objs, mem, t, a).Some?
    ensures n == Size(t) && CopyOf(t, mem, a, objs, h0, v, h)
    decreases t, 0, 1
  {
    ghost var trees := Decode(objs, mem, t, a).value.kids;
    DecodeLength(objs, mem, t, 0, a);
    var newvalues;
    newvalues, n, h := CopyElements(t, mem, a, objs, trees, h0);
    v := VSub(h0.next, newvalues);
    AllCopied(t, mem, a, objs, h0, newvalues, h, trees);
  }

  /** The loop of copy_value. The branch that passes on an error of an element is never taken, since
      no element is of the unset type. */
  method CopyElements(t: DType, mem: seq<Byte>, a: nat, ghost objs: Objs, ghost trees: seq<Tree>, h0: Heap)
    returns (newvalues: seq<Value>, bytesRead: int, h: Heap)
    requires WellFormed(t) && IsContainer(t.tag) && !t.isReference && |trees| == NumSubvals(t)
    requires h0.Valid() && Extends(objs, h0.objs) && a + Size(t) <= |mem| &&
        Decode(objs, mem, t, a) == Some(TNode(trees))
    ensures bytesRead == Size(t) && Copying(t, mem, objs, h0, newvalues, t.numElements, h, trees)
    decreases t, 0, 0
  {
    var typeIndex;
    newvalues, bytesRead, typeIndex := [], 0, 0;
    h := h0.Malloc(Raw);
    var i := 0;
    while i < t.numElements
      invariant 0 <= i <= t.numElements && bytesRead == Offset(t, i)
      invariant typeIndex == if t.tag.Tuple? then i else 0
      invariant Copying(t, mem, objs, h0, newvalues, i, h, trees)
    {
      var value, result;
      value, result, h := CopyElement(t, i, t.subtype[typeIndex], mem, a, bytesRead, objs,
                                      trees, h0, newvalues, h);
      newvalues := newvalues + [value];
      bytesRead := bytesRead + result;
      if t.tag.Tuple? {
        typeIndex := typeIndex + 1;
      }
      i := i + 1;
    }
  }

  /** One round of the loop. */
  method CopyElement(t: DType, ghost i: nat, c: DType, mem: seq<Byte>, a: nat, offset: nat, ghost objs: Objs,
      ghost trees: seq<Tree>, ghost h0: Heap, ghost vs: seq<Value>, h1: Heap)
    returns (value: Value, result: int, h: Heap)
    requires WellFormed(t) && IsContainer(t.tag) && i < NumSubvals(t) == |trees|
    requires HasComponent(t, i) ==> c == Component(t, i)
    requires offset == Offset(t, i) && Extends(objs, h0.objs) && a + Size(t) <= |mem| &&
        Decode(objs, mem, t, a) == Some(TNode(trees))
    requires Copying(t, mem, objs, h0, vs, i, h1, trees)
    ensures result == Offset(t, i + 1) - offset
    ensures Copying(t, mem, objs, h0, vs + [value], i + 1, h, trees)
    decreases c, 2, 0
  {
    ElementIsReady(t, mem, a, objs, i);
    value, result, h := CopyValue(c, mem, a + offset, objs, h1);
    OneMoreCopied(t, mem, objs, h0, vs, i, h1, value, h, trees);
  }

  lemma AllCopied(t: DType, mem: seq<Byte>, a: nat, objs: Objs, h0: Heap, vs: seq<Value>, h: Heap, trees: seq<Tree>)
    requires HasAll(t) && !t.isReference && NumSubvals(t) == t.numElements == |trees|
    requires Decode(objs, mem, t, a) == Some(TNode(trees))
    requires Copying(t, mem, objs, h0, vs, t.numElements, h, trees)
    ensures CopyOf(t, mem, a, objs, h0, VSub(h0.next, vs), h)
  {
    WalkEach(Since(objs, h0, h), mem, t, VSub(h0.next, vs), 0, trees);
    assert trees[0..] == trees;
  }

  lemma ElementIsReady(t: DType, mem: seq<Byte>, a: nat, objs: Objs, i: nat)
    requires WellFormed(t) && IsContainer(t.tag) && i < NumSubvals(t)
    requires a + Size(t) <= |mem| && DecodeFrom(objs, mem, t, 0, a).Some?
    ensures HasComponent(t, i)
    ensures var c := Component(t, i);
            && WellFormed(c) && a + Offset(t, i) + Size(c) <= |mem|
            && |DecodeFrom(objs, mem, t, 0, a).value| == NumSubvals(t)
            && Decode(objs, mem, c, a + Offset(t, i)) == Some(DecodeFrom(objs, mem, t, 0, a).value[i])
  {
    ShapedComponent(t, i);
    SidedComponent(t, i);
    OffsetWithin(t, i, NumSubvals(t));
    DecodeEach(objs, mem, t, 0, a, i);
  }

  /** The scalar branches of copy_value: strings and times that are not references are duplicated. */
  method CopyScalar(t: DType, mem: seq<Byte>, a: nat, ghost objs: Objs, h0: Heap) returns (v: Value, n: int, h: Heap)
    requires IsStatic(t) && h0.Valid() && Extends(objs, h0.objs)
    requires a + t.numBytes <= |mem| && Decode(objs, mem, t, a).Some?
    ensures n == t.numBytes && CopyOf(t, mem, a, objs, h0, v, h)
  {
    h := h0;
    match t.tag {
      case Long | ULong | Date =>
        v, n := VLong(TwosComplement(Bytes(mem, a, SIZEOF_LONG))), SIZEOF_LONG;
      case LongLong | ULongLong =>
        v, n := VLongLong(TwosComplement(Bytes(mem, a, SIZEOF_LONG_LONG))), SIZEOF_LONG_LONG;
      case Int | UInt =>
        if t.numBytes == 1 {
          v := VInt(TwosComplement(Bytes(mem, a, 1)));
        } else if t.numBytes == 2 {
          v := VInt(TwosComplement(Bytes(mem, a, 2)));
        } else {
          v := VInt(TwosComplement(Bytes(mem, a, SIZEOF_INT)));
        }
        n := t.numBytes;
      case Double =>
        v := VDouble(if t.numBytes == 4 then Widened(Bytes(mem, a, SIZEOF_FLOAT))
          else Plain(Bytes(mem, a, SIZEOF_DOUBLE)));
        n := t.numBytes;
      case Timeval | Version | String | CatString | JsonString | Path =>
        v, h := CopyPointer(t, LittleEndian(Bytes(mem, a, SIZEOF_POINTER)), objs, h0);
        n := SIZEOF_POINTER;
    }
  }

  /** What a string or a struct timeval is stored as: the pointer, or a duplicate. */
  method CopyPointer(t: DType, p: nat, ghost objs: Objs, h0: Heap) returns (v: Value, h: Heap)
    requires h0.Valid() && Extends(objs, h0.objs) && (IsText(t.tag) || t.tag.Timeval?) &&
        PointedTo(objs, t.tag, p).Some?
    ensures h0.GrowsTo(h) && h.next == h0.next + ValueSpan(t, v) && Placed(t, v, h0.next)
    ensures v.VPtr? && PointedTo(Since(objs, h0, h), t.tag, v.p) == PointedTo(objs, t.tag, p)
  {
    if t.isReference {
      v, h := VPtr(p), h0;
    } else {
      v, h := VPtr(h0.next), h0.Malloc(h0.objs[p]);
    }
  }

  ghost predicate CopiedSoFar(t: DType, h0: Heap, vs: seq<Value>, i: nat, h: Heap) {
    && |vs| == i && h0.GrowsTo(h)
    && h.next == h0.next + 1 + SpanOfElems(t, vs, i) && PlacedElems(t, vs, i, h0.next + 1)
  }

  /** Both, when the reader of the copies starts from objs. */
  ghost predicate Copying(t: DType, mem: seq<Byte>, objs: Objs, h0: Heap, vs: seq<Value>, i: nat, h: Heap,
      trees: seq<Tree>)
  {
    CopiedSoFar(t, h0, vs, i, h) && WalkSoFar(t, mem, Since(objs, h0, h), vs, i, trees)
  }

  ghost predicate WalkSoFar(t: DType, mem: seq<Byte>, objs: Objs, vs: seq<Value>, i: nat, trees: seq<Tree>) {
    && i <= |vs| && i <= |trees|
    && forall k :: 0 <= k < i ==> HasComponent(t, k) && Walk(objs, mem, Component(t, k), vs[k]) == Some(trees[k])
  }

  lemma OneMoreCopied(t: DType, mem: seq<Byte>, objs: Objs, h0: Heap, vs: seq<Value>, i: nat, h1: Heap, v: Value,
      h: Heap, trees: seq<Tree>)
    requires HasAll(t) && i < NumSubvals(t) == |trees|
    requires Copying(t, mem, objs, h0, vs, i, h1, trees)
    requires h1.GrowsTo(h) && h.next == h1.next + ValueSpan(Component(t, i), v) && Placed(Component(t, i), v, h1.next)
    requires Walk(Since(objs, h1, h), mem, Component(t, i), v) == Some(trees[i])
    ensures Copying(t, mem, objs, h0, vs + [v], i + 1, h, trees)
  {
    ElemsAppend(t, vs, v, i, h0.next + 1);
    var more := Since(objs, h0, h);
    WalkExtends(Since(objs, h1, h), more, mem, Component(t, i), v);
    forall k | 0 <= k < i ensures Walk(more, mem, Component(t, k), (vs + [v])[k]) == Some(trees[k]) {
      WalkExtends(Since(objs, h0, h1), more, mem, Component(t, k), vs[k]);
    }
  }

  // ---------------------------------------------------------------- zero copy and deep copy

  /** The end of adiak_namevalue for a container at address a: a reference is stored as it is,
      anything else is copied. */
  method StoreContainer(t: DType, mem: seq<Byte>, a: nat, ghost objs: Objs, h0: Heap) returns (v: Value, h: Heap)
    requires WellFormed(t) && IsContainer(t.tag)
    requires h0.Valid() && Extends(objs, h0.objs) && a + Size(t) <= |mem| && Decode(objs, mem, t, a).Some?
    ensures CopyOf(t, mem, a, objs, h0, v, h)
    ensures t.isReference ==> v == VRef(a) && h == h0
  {
    if t.isReference {
      v, h := VRef(a), h0;
      ReferenceIsCopy(t, mem, a, objs, h0);
    } else {
      var n;
      v, n, h := CopyValue(t, mem, a, objs, h0);
    }
  }

  /** Zero copy refines deep copy: storing the same data twice, taking different parts of it by
      reference, gives values that no reader can tell apart. */
  method StoreTwice(t: DType, u: DType, mem: seq<Byte>, a: nat, h0: Heap) returns (v: Value, w: Value, h: Heap)
    requires WellFormed(t) && WellFormed(u) && IsContainer(t.tag) && SameImage(t, u)
    requires h0.Valid() && a + Size(t) <= |mem| && Decode(h0.objs, mem, t, a).Some?
    ensures Walk(h.objs, mem, t, v) == Walk(h.objs, mem, u, w) == Decode(h0.objs, mem, t, a)
  {
    v, h := StoreContainer(t, mem, a, h0.objs, h0);
    ghost var h1 := h;
    SameDecode(h0.objs, mem, t, u, a);
    SameSize(t, u);
    w, h := StoreContainer(u, mem, a, h0.objs, h);
    WalkExtends(Since(h0.objs, h0, h1), h.objs, mem, t, v);
    WalkExtends(Since(h0.objs, h1, h), h.objs, mem, u, w);
  }

  // ---------------------------------------------------------------- freeing

  lemma {:induction false} PlacedAt(t: DType, vs: seq<Value>, n: nat, base: nat, i: nat)
    requires i < n && PlacedElems(t, vs, n, base)
    ensures n <= |vs| && HasComponent(t, i) && Placed(Component(t, i), vs[i], base + SpanOfElems(t, vs, i))
    ensures SpanOfElems(t, vs, i + 1) ==
        SpanOfElems(t, vs, i) + ValueSpan(Component(t, i), vs[i]) <= SpanOfElems(t, vs, n)
    decreases n
  {
    if i + 1 < n {
      PlacedAt(t, vs, n - 1, base, i);
    }
  }

  /** free_adiak_value_worker: frees exactly the blocks of the value. */
  method FreeValueWorker(t: DType, v: Value, ghost base: nat, h0: Heap) returns (h: Heap)
    requires h0.Valid() && Placed(t, v, base) && AllLive(h0, base, base + ValueSpan(t, v))
    ensures h.Valid() && h0.LessBlocks(BlocksFrom(base, base + ValueSpan(t, v)), h)
    decreases t, 1
  {
    h := h0;
    if t.isReference {
      return;
    }
    if IsText(t.tag) || t.tag.Timeval? {
      h := h.Free(v.p);
    } else if IsContainer(t.tag) {
      h := FreeElems(t, v.elems, base + 1, h);
      h := h.Free(v.arr);
    }
  }

  /** The loops of free_adiak_value_worker over the elements. */
  method FreeElems(t: DType, values: seq<Value>, ghost base: nat, h0: Heap) returns (h: Heap)
    requires h0.Valid() && PlacedElems(t, values, t.numElements, base)
    requires AllLive(h0, base, base + SpanOfElems(t, values, t.numElements))
    ensures h.Valid() && h0.LessBlocks(BlocksFrom(base, base + SpanOfElems(t, values, t.numElements)), h)
    decreases t, 0
  {
    h := h0;
    for i := 0 to t.numElements
      invariant h.Valid() && h0.LessBlocks(BlocksFrom(base, base + SpanOfElems(t, values, i)), h)
    {
      PlacedAt(t, values, t.numElements, base, i);
      ghost var h1, at := h, base + SpanOfElems(t, values, i);
      h := FreeValueWorker(if t.tag.Tuple? then t.subtype[i] else t.subtype[0], values[i], at, h);
      LessRange(h0, base, at, h1, base + SpanOfElems(t, values, i + 1), h);
    }
  }

  lemma LessRange(h0: Heap, lo: nat, mid: nat, h1: Heap, hi: nat, h2: Heap)
    requires lo <= mid <= hi && h0.LessBlocks(BlocksFrom(lo, mid), h1) && h1.LessBlocks(BlocksFrom(mid, hi), h2)
    ensures h0.LessBlocks(BlocksFrom(lo, hi), h2)
  {
  }

  /** free_adiak_value: also frees the cell that holds the value. */
  method FreeValue(t: DType, v: Value, cell: nat, ghost base: nat, h0: Heap) returns (h: Heap)
    requires h0.Valid() && Placed(t, v, base) && AllLive(h0, base, base + ValueSpan(t, v))
    requires cell in h0.objs && !(base <= cell < base + ValueSpan(t, v))
    ensures h.Valid() && h0.LessBlocks(BlocksFrom(base, base + ValueSpan(t, v)) + {cell}, h)
  {
    h := FreeValueWorker(t, v, base, h0);
    h := h.Free(cell);
  }
}
