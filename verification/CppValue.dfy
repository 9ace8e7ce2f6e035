/** adiak::value of include/adiak.hpp up to the registration: the type and the value of a C++ object, with
    all their blocks. */
module CppValue {
  import opened AdiakTypes
  import opened CHeap
  import opened Layout
  import opened Views
  import opened Readings
  import opened DeepCopy
  import opened Records
  import opened CppBuilder
  import L = Ledger

  // ---------------------------------------------------------------- the blocks of the type

  lemma {:induction false} SpanOfLonger(ts: seq<DType>, t: DType, n: nat)
    requires n <= |ts|
    ensures SpanOfFirst(ts + [t], n) == SpanOfFirst(ts, n)
  {
    if n > 0 {
      SpanOfLonger(ts, t, n - 1);
    }
  }

  /** parse<T>::make_type and make_range_t: the node, the array of subtypes, and then the subtypes. */
  method NewType(c: CppType, h0: Heap) returns (t: DType, h: Heap)
    requires Supported(c) && h0.Valid()
    ensures t == MakeType(c) && h0.GrowsTo(h) && h.next == h0.next + Span(t)
    decreases c, 1, 0
  {
    if c.Scalar? {
      return GetBaseType(c.tag).value, h0;
    }
    h := h0.Malloc(Raw);
    h := h.Malloc(Raw);
    if c.Sequence? {
      var subtype;
      subtype, h := NewType(c.elem, h);
      t := MakeType(c);
      assert SpanOfFirst(t.subtype, 1) == SpanOfFirst(t.subtype, 0) + Span(subtype);
    } else {
      var dtypes;
      dtypes, h := SetTypes(c, |c.elems|, h);
      t := MakeType(c);
      assert dtypes == t.subtype;
    }
  }

  predicate FirstMade(c: CppType, dtypes: seq<DType>)
    requires c.TupleOf? && Supported(c) && |dtypes| <= |c.elems|
  {
    forall i :: 0 <= i < |dtypes| ==> dtypes[i] == MakeType(c.elems[i])
  }

  /** set_tuple_type<T, n>::settype: element n - 1 first, then the ones before it. */
  method SetTypes(c: CppType, n: nat, h0: Heap) returns (dtypes: seq<DType>, h: Heap)
    requires c.TupleOf? && Supported(c) && n <= |c.elems| && h0.Valid()
    ensures |dtypes| == n && FirstMade(c, dtypes)
    ensures h0.GrowsTo(h) && h.next == h0.next + SpanOfFirst(dtypes, n)
    decreases c, 0, n
  {
    if n == 0 {
      return [], h0;
    }
    var last;
    last, h := NewType(c.elems[n - 1], h0);
    dtypes, h := SetTypes(c, n - 1, h);
    SpanOfLonger(dtypes, last, n - 1);
    dtypes := dtypes + [last];
  }

  /** The type that an object ends up with. */
  function TypeOfObject(c: CppType, d: Tree): DType
    requires Supported(c) && OfType(c, d)
  {
    FinalType(c, d, MakeType(c))
  }

  lemma {:induction false} MadeIsShaped(c: CppType)
    requires Supported(c)
    ensures Shaped(MakeType(c))
  {
    match c
    case Scalar(_) =>
    case Sequence(_, elem) => MadeIsShaped(elem);
    case TupleOf(elems) =>
      forall i | 0 <= i < |elems| ensures Shaped(MakeType(elems[i])) {
        MadeIsShaped(elems[i]);
      }
  }

  /** Building neither spoils a type nor changes how many blocks it has. */
  lemma {:induction false} FinalIsShaped(c: CppType, d: Tree, t: DType)
    requires OfType(c, d) && Matches(c, t) && Shaped(t)
    ensures Shaped(FinalType(c, d, t)) && Span(FinalType(c, d, t)) == Span(t)
    decreases c, 1, 0
  {
    match c
    case Scalar(_) =>
    case Sequence(_, elem) =>
      FinalAfterIsShaped(elem, d.kids, |d.kids|, t.subtype[0]);
      var u := FinalType(c, d, t);
      assert SpanOfFirst(u.subtype, 1) == SpanOfFirst(u.subtype, 0) + Span(u.subtype[0]);
      assert SpanOfFirst(t.subtype, 1) == SpanOfFirst(t.subtype, 0) + Span(t.subtype[0]);
    case TupleOf(elems) =>
      var u := FinalType(c, d, t);
      forall i | 0 <= i < |elems| ensures Shaped(u.subtype[i]) && Span(u.subtype[i]) == Span(t.subtype[i]) {
        FinalIsShaped(elems[i], d.kids[i], t.subtype[i]);
      }
      SameSpans(u.subtype, t.subtype, |elems|);
  }

  lemma {:induction false} FinalAfterIsShaped(c: CppType, kids: seq<Tree>, n: nat, t: DType)
    requires n <= |kids| && (forall i :: 0 <= i < |kids| ==> OfType(c, kids[i])) && Matches(c, t) && Shaped(t)
    ensures Shaped(FinalAfter(c, kids, n, t)) && Span(FinalAfter(c, kids, n, t)) == Span(t)
    decreases c, 2, n
  {
    if n > 0 {
      FinalAfterIsShaped(c, kids, n - 1, t);
      FinalIsShaped(c, kids[n - 1], FinalAfter(c, kids, n - 1, t));
    }
  }

  lemma {:induction false} SameSpans(ts: seq<DType>, us: seq<DType>, n: nat)
    requires n <= |ts| == |us| && forall i :: 0 <= i < n ==> Span(ts[i]) == Span(us[i])
    ensures SpanOfFirst(ts, n) == SpanOfFirst(us, n)
  {
    if n > 0 {
      SameSpans(ts, us, n - 1);
    }
  }

  // ---------------------------------------------------------------- what a reader needs

  ghost predicate SeesFrom(objs: Objs, seen: Objs, base: nat) {
    forall p :: p in objs && base <= p ==> p in seen && seen[p] == objs[p]
  }

  /** A reader needs no blocks but those of the value. */
  lemma {:induction false} BuiltNeedsOwn(objs: Objs, seen: Objs, c: CppType, d: Tree, v: Value, base: nat)
    requires Supported(c) && OfType(c, d) && Built(objs, c, d, v) && Laid(c, d, v, base)
    requires SeesFrom(objs, seen, base)
    ensures Built(seen, c, d, v)
    decreases c, 1, 0
  {
    if !c.Scalar? {
      forall i | 0 <= i < |d.kids| ensures Built(seen, ElemAt(c, i), d.kids[i], v.elems[i]) {
        LaidAt(c, d, v.elems, |d.kids|, base + 1, i);
        assert Built(objs, ElemAt(c, i), d.kids[i], v.elems[i]);
        BuiltNeedsOwn(objs, seen, ElemAt(c, i), d.kids[i], v.elems[i], base + 1 + BuiltSpanFirst(c, d, i));
      }
    }
  }

  lemma {:induction false} LaidAt(c: CppType, d: Tree, vs: seq<Value>, n: nat, base: nat, i: nat)
    requires OfType(c, d) && !c.Scalar? && i < n <= |d.kids| && n <= |vs| && LaidFirst(c, d, vs, n, base)
    ensures Laid(ElemAt(c, i), d.kids[i], vs[i], base + BuiltSpanFirst(c, d, i))
  {
    if i < n - 1 {
      LaidAt(c, d, vs, n - 1, base, i);
    }
  }

  // ---------------------------------------------------------------- adiak::value

  /** An object that can be handed over, with the type that it ends up with and whether it can be represented. */
  datatype Object = Object(c: CppType, d: Tree, dtype: DType, exact: bool)

  predicate IsObject(o: Object) {
    && Supported(o.c) && OfType(o.c, o.d) && Uniform(o.c, o.d)
    && o.dtype == TypeOfObject(o.c, o.d) && o.exact == Representable(o.c, o.d)
  }

  /** x is what adiak::value hands over for the object. Its blocks and objs are all that a reader needs, who sees
      the object if it can be represented. */
  ghost predicate Shows(o: Object, mem: seq<Byte>, objs: Objs, h0: Heap, x: Handle, h: Heap) {
    && L.Prepared(h0, x, h) && x.dtype == o.dtype
    && Walk(Since(objs, h0, h), mem, x.dtype, x.value).Some?
    && (ReadBack(Since(objs, h0, h), mem, x.dtype, x.value) == Some(o.d) <==> o.exact)
  }

  /** Type, cell and value take up the new blocks, with the cell before the value or after it. */
  ghost predicate LaidOut(c: CppType, d: Tree, h0: Heap, x: Handle, h: Heap)
    requires Supported(c) && OfType(c, d)
  {
    && h0.GrowsTo(h) && x.dtype == TypeOfObject(c, d) && x.typeAt == h0.next
    && h.next == h0.next + Span(x.dtype) + 1 + BuiltSpan(c, d)
    && (|| (x.cell == h0.next + Span(x.dtype) && x.base == x.cell + 1)
        || (x.base == h0.next + Span(x.dtype) && x.cell == x.base + BuiltSpan(c, d)))
    && Built(h.objs, c, d, x.value) && Laid(c, d, x.value, x.base)
  }

  lemma CompleteIfUniform(c: CppType, d: Tree, objs: Objs, h0: Heap, x: Handle, h: Heap)
    requires Supported(c) && OfType(c, d) && LaidOut(c, d, h0, x, h)
    ensures L.Complete(x) <==> Uniform(c, d)
    ensures Uniform(c, d) ==> L.Prepared(h0, x, h)
  {
    PlacedIfFits(c, x.dtype, d, x.value, x.base);
    UniformIfFits(c, MakeType(c), d);
  }

  lemma FinalSpan(c: CppType, d: Tree)
    requires Supported(c) && OfType(c, d)
    ensures Shaped(TypeOfObject(c, d)) && Span(TypeOfObject(c, d)) == Span(MakeType(c))
  {
    MadeIsShaped(c);
    FinalIsShaped(c, d, MakeType(c));
  }

  lemma LaidOutBefore(c: CppType, d: Tree, h0: Heap, h1: Heap, v: Value, h2: Heap, h: Heap)
    requires Supported(c) && OfType(c, d) && h0.GrowsTo(h1) && h1.next == h0.next + Span(MakeType(c))
    requires h1.GrowsTo(h2) && h2.next == h1.next + BuiltSpan(c, d) && Built(h2.objs, c, d, v) && Laid(c, d, v, h1.next)
    requires h2.GrowsTo(h) && h.next == h2.next + 1
    ensures LaidOut(c, d, h0, Handle(TypeOfObject(c, d), h0.next, v, h2.next, h1.next), h)
  {
    FinalSpan(c, d);
    GrowsOn(h0, h1, h2);
    GrowsOn(h0, h2, h);
    BuiltExtends(h2.objs, h.objs, c, d, v);
  }

  lemma GrowsOn(h0: Heap, h1: Heap, h2: Heap)
    requires h0.GrowsTo(h1) && h1.GrowsTo(h2)
    ensures h0.GrowsTo(h2)
  {
  }

  lemma LaidOutAfter(c: CppType, d: Tree, h0: Heap, h1: Heap, v: Value, h: Heap)
    requires Supported(c) && OfType(c, d) && h0.GrowsTo(h1) && h1.next == h0.next + Span(MakeType(c)) + 1
    requires h1.GrowsTo(h) && h.next == h1.next + BuiltSpan(c, d) && Built(h.objs, c, d, v) && Laid(c, d, v, h1.next)
    ensures LaidOut(c, d, h0, Handle(TypeOfObject(c, d), h0.next, v, h1.next - 1, h1.next), h)
  {
    FinalSpan(c, d);
  }

  /** The type, the cell of one object before its value, and the value; or the bounds of a range and then
      their cell. */
  method Allocate(c: CppType, d: Tree, h0: Heap) returns (x: Handle, h: Heap)
    requires Supported(c) && OfType(c, d) && h0.Valid()
    ensures LaidOut(c, d, h0, x, h)
  {
    var t;
    t, h := NewType(c, h0);
    if c.Sequence? && c.kind.Range? {
      x, h := AllocateRange(c, d, t, h0, h);
    } else {
      x, h := AllocateObject(c, d, t, h0, h);
    }
  }

  method AllocateRange(c: CppType, d: Tree, t0: DType, h0: Heap, h1: Heap) returns (x: Handle, h: Heap)
    requires Supported(c) && OfType(c, d) && t0 == MakeType(c) && h0.GrowsTo(h1) && h1.next == h0.next + Span(t0)
    ensures LaidOut(c, d, h0, x, h)
  {
    var v, t;
    v, t, h := MakeValue(c, d, t0, h1);
    x := Handle(t, h0.next, v, h.next, h1.next);
    ghost var h2 := h;
    h := h.Malloc(Raw);
    LaidOutBefore(c, d, h0, h1, v, h2, h);
  }

  method AllocateObject(c: CppType, d: Tree, t0: DType, h0: Heap, h1: Heap) returns (x: Handle, h: Heap)
    requires Supported(c) && OfType(c, d) && t0 == MakeType(c) && h0.GrowsTo(h1) && h1.next == h0.next + Span(t0)
    ensures LaidOut(c, d, h0, x, h)
  {
    var v, t;
    h := h1.Malloc(Raw);
    ghost var h2 := h;
    v, t, h := MakeValue(c, d, t0, h);
    LaidOutAfter(c, d, h0, h2, v, h);
    x := Handle(t, h0.next, v, h1.next, h1.next + 1);
  }

  /** adiak::value up to the registration. Type and value are complete, so that they can be handed over,
    exactly if sibling
      containers have equal lengths. */
  method ValueOf(c: CppType, d: Tree, mem: seq<Byte>, ghost objs: Objs, h0: Heap) returns (x: Handle, h: Heap)
    requires Supported(c) && OfType(c, d) && h0.Valid()
    ensures h0.GrowsTo(h) && x.dtype == TypeOfObject(c, d) && x.typeAt == h0.next
    ensures L.Complete(x) <==> Uniform(c, d)
    ensures Uniform(c, d) ==> L.Prepared(h0, x, h) && Walk(Since(objs, h0, h), mem, x.dtype, x.value).Some?
    ensures ReadBack(Since(objs, h0, h), mem, x.dtype, x.value) == Some(d) <==> Uniform(c, d) && Representable(c, d)
  {
    x, h := Allocate(c, d, h0);
    CompleteIfUniform(c, d, objs, h0, x, h);
    BuiltNeedsOwn(h.objs, Since(objs, h0, h), c, d, x.value, x.base);
    BuiltReads(Since(objs, h0, h), mem, c, MakeType(c), d, x.value);
    if Uniform(c, d) {
      UniformIfFits(c, MakeType(c), d);
      BuiltWalks(Since(objs, h0, h), mem, c, x.dtype, d, x.value);
    }
  }

  /** What adiak::value makes of an object whose siblings have equal lengths is released by its type without a
      rest, but for the arrays of empty tuples. */
  method ValueAndRelease(c: CppType, d: Tree, mem: seq<Byte>, h0: Heap) returns (h: Heap)
    requires Supported(c) && OfType(c, d) && Uniform(c, d) && h0.Valid()
    ensures forall p: nat :: p in h.objs <==> p in h0.objs || p in LostBlocks(TypeOfObject(c, d), h0.next)
    ensures |LostBlocks(TypeOfObject(c, d), h0.next)| == EmptyTuples(TypeOfObject(c, d))
  {
    var x;
    x, h := ValueOf(c, d, mem, map[], h0);
    h := Release(h0, x, h);
    FinalSpan(c, d);
    LostIsEmptyTuples(TypeOfObject(c, d), h0.next);
  }

  method Release(ghost h0: Heap, x: Handle, h1: Heap) returns (h: Heap)
    requires L.Prepared(h0, x, h1)
    ensures forall p: nat :: p in h.objs <==> p in h0.objs || p in LostBlocks(x.dtype, x.typeAt)
  {
    LiveWhenPrepared(h0, x, h1);
    h := FreeValue(x.dtype, x.value, x.cell, x.base, h1);
    ghost var h2 := h;
    h := FreeType(x.dtype, x.typeAt, h);
    Remain(h0, x, h1, h2, h);
  }

  lemma LiveWhenPrepared(h0: Heap, x: Handle, h1: Heap)
    requires L.Prepared(h0, x, h1)
    ensures x.cell in h1.objs && AllLive(h1, x.base, x.base + ValueSpan(x.dtype, x.value))
    ensures AllLive(h1, x.typeAt, x.typeAt + Span(x.dtype))
  {
    assert forall p: nat :: L.InHandle(x, p) ==> p in h1.objs;
  }

  lemma Remain(h0: Heap, x: Handle, h1: Heap, h2: Heap, h: Heap)
    requires L.Prepared(h0, x, h1)
    requires h1.LessBlocks(BlocksFrom(x.base, x.base + ValueSpan(x.dtype, x.value)) + {x.cell}, h2)
    requires h2.LessBlocks(FreedBlocks(x.dtype, x.typeAt), h)
    ensures forall p: nat :: p in h.objs <==> p in h0.objs || p in LostBlocks(x.dtype, x.typeAt)
  {
    forall p: nat ensures p in h.objs <==> p in h0.objs || p in LostBlocks(x.dtype, x.typeAt) {
      Remains(h0, x, h1, h2, h, p);
    }
  }

  lemma Remains(h0: Heap, x: Handle, h1: Heap, h2: Heap, h: Heap, p: nat)
    requires L.Prepared(h0, x, h1)
    requires h1.LessBlocks(BlocksFrom(x.base, x.base + ValueSpan(x.dtype, x.value)) + {x.cell}, h2)
    requires h2.LessBlocks(FreedBlocks(x.dtype, x.typeAt), h)
    ensures p in h.objs <==> p in h0.objs || p in LostBlocks(x.dtype, x.typeAt)
  {
    LostIsWithin(x.dtype, x.typeAt, p);
    assert L.InHandle(x, p) <==> p in h1.objs && p !in h0.objs;
  }
}
