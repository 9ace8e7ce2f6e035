/** The C++ templates of include/adiak_internal.hpp that build a type and a value from a container.
    All the containers at one place of the type share one descriptor, whose element count is
    overwritten each time one of them is built. */
module CppBuilder {
  import opened AdiakTypes
  import opened CHeap
  import opened Layout
  import opened Views
  import opened Readings
  import opened DeepCopy

  /** A C++ type the templates accept: an element type with a tag of its own, an STL container
      (kind Set or List) or a pair that makes a range, or a std::tuple. */
  datatype CppType = Scalar(tag: Tag) | Sequence(kind: Tag, elem: CppType) | TupleOf(elems: seq<CppType>)

  /** The type is built from supported element types. */
  predicate Supported(c: CppType) {
    match c
    case Scalar(tag) => GetBaseType(tag).Some?
    case Sequence(kind, elem) => (kind.Set? || kind.List? || kind.Range?) && Supported(elem)
    case TupleOf(elems) => forall i :: 0 <= i < |elems| ==> Supported(elems[i])
  }

  /** The type of element i. */
  function ElemAt(c: CppType, i: nat): (e: CppType)
    requires !c.Scalar? && (c.TupleOf? ==> i < |c.elems|)
    ensures e < c
  {
    if c.Sequence? then c.elem else c.elems[i]
  }

  /** d is an object of type c, its elements in iteration order. */
  predicate OfType(c: CppType, d: Tree)
    decreases c
  {
    match c
    case Scalar(tag) =>
      if IsText(tag) then d.TText? else if tag.Timeval? then d.TTime? else if tag.Double? then d.TReal?
      else d.TInt? && (if tag.Date? then 0 <= d.i < MemberRange(Date) else InRange(tag, d.i))
    case Sequence(kind, elem) =>
      d.TNode? && (kind.Range? ==> |d.kids| == 2) && forall i :: 0 <= i < |d.kids| ==> OfType(elem, d.kids[i])
    case TupleOf(elems) =>
      d.TNode? && |d.kids| == |elems| && forall i :: 0 <= i < |elems| ==> OfType(elems[i], d.kids[i])
  }

  // ---------------------------------------------------------------- what a value can hold

  /** The C string in a string: what strdup copies of c_str. */
  function CStr(s: string): (r: string)
    ensures r <= s && NUL !in r
    ensures r == s <==> NUL !in s
  {
    if s == [] || s[0] == NUL then [] else
    var r := CStr(s[1..]);
    assert s == [s[0]] + s[1..];
    [s[0]] + r
  }

  /** What a reader finds of a scalar, before any cast. */
  function Shown(tag: Tag, d: Tree): Tree {
    if d.TText? then TText(CStr(d.s)) else if d.TInt? then TInt(Signed(tag, d.i)) else d
  }

  /** Every string in d ends at its terminator, and every date fits in a long. */
  predicate Representable(c: CppType, d: Tree)
    requires OfType(c, d)
    decreases c
  {
    match c
    case Scalar(tag) => if IsText(tag) then NUL !in d.s else if tag.Date? then d.i < MemberRange(Date) / 2 else true
    case Sequence(_, elem) => forall i :: 0 <= i < |d.kids| ==> Representable(elem, d.kids[i])
    case TupleOf(elems) => forall i :: 0 <= i < |elems| ==> Representable(elems[i], d.kids[i])
  }

  /** A std::string with a terminator inside is cut. */
  lemma NulCuts(c: CppType, d: Tree)
    requires c == Scalar(String) && d == TText(['a', NUL, 'b'])
    ensures OfType(c, d) && !Representable(c, d) && Shown(String, d) == TText("a")
  {
    assert d.s[1..] == [NUL, 'b'] && CStr([NUL, 'b']) == [];
  }

  lemma ShownReads(tag: Tag, t: DType, d: Tree)
    requires Supported(Scalar(tag)) && OfType(Scalar(tag), d) && GetBaseType(tag) == Some(t)
    ensures AsRead(t, Shown(tag, d)) == d <==> Representable(Scalar(tag), d)
  {
    if d.TInt? && !tag.Date? {
      CastOfSigned(tag, d.i);
    }
  }

  // ---------------------------------------------------------------- the type

  /** parse<T>::make_type and make_range_t */
  function MakeType(c: CppType): (t: DType)
    requires Supported(c)
    ensures Matches(c, t)
  {
    match c
    case Scalar(tag) => GetBaseType(tag).value
    case Sequence(kind, elem) =>
      DType(kind, if kind.Range? then NumericalUnset else NumericalFromType(kind), if kind.Range? then 2 else 0,
            [MakeType(elem)], false, 0, 0)
    case TupleOf(elems) =>
      DType(Tuple, NumericalFromType(Tuple), |elems|,
            seq(|elems|, i requires 0 <= i < |elems| => MakeType(elems[i])), false, 0, 0)
  }

  /** t is a descriptor for c, whatever element counts its sequences have at the moment. */
  predicate Matches(c: CppType, t: DType)
    decreases c
  {
    match c
    case Scalar(tag) => GetBaseType(tag) == Some(t)
    case Sequence(kind, elem) =>
      && t.tag == kind && (kind.Set? || kind.List? || kind.Range?)
      && !t.isReference && t.numRefElements == 0 && |t.subtype| == 1 && Matches(elem, t.subtype[0])
    case TupleOf(elems) =>
      && t.tag == Tuple && !t.isReference && t.numRefElements == 0 && t.numElements == |elems| == |t.subtype|
      && forall i :: 0 <= i < |elems| ==> Matches(elems[i], t.subtype[i])
  }

  lemma MatchesComponent(c: CppType, t: DType, i: nat)
    requires !c.Scalar? && Matches(c, t) && i < t.numElements
    ensures HasComponent(t, i) && NumSubvals(t) == t.numElements && (c.TupleOf? ==> i < |c.elems|)
    ensures Matches(ElemAt(c, i), Component(t, i))
  {
  }

  /** The descriptor after an object has been built with it: each container leaves its size. */
  function FinalType(c: CppType, d: Tree, t: DType): (r: DType)
    requires OfType(c, d) && Matches(c, t)
    ensures Matches(c, r)
    decreases c, 1, 0
  {
    match c
    case Scalar(_) => t
    case Sequence(_, elem) => t.(subtype := [FinalAfter(elem, d.kids, |d.kids|, t.subtype[0])], numElements := |d.kids|)
    case TupleOf(elems) =>
      t.(subtype := seq(|elems|, i requires 0 <= i < |elems| => FinalType(elems[i], d.kids[i], t.subtype[i])))
  }

  /** After the first n elements of a container. */
  function FinalAfter(c: CppType, kids: seq<Tree>, n: nat, t: DType): (r: DType)
    requires n <= |kids| && (forall i :: 0 <= i < |kids| ==> OfType(c, kids[i])) && Matches(c, t)
    ensures Matches(c, r)
    decreases c, 2, n
  {
    if n == 0 then t else FinalType(c, kids[n - 1], FinalAfter(c, kids, n - 1, t))
  }

  // ---------------------------------------------------------------- the value

  /** v was built from d: an array for each container, with as many elements as the container. */
  predicate Built(objs: Objs, c: CppType, d: Tree, v: Value)
    requires Supported(c) && OfType(c, d)
    decreases c
  {
    match c
    case Scalar(tag) => WalkScalar(objs, GetBaseType(tag).value, v) == Some(Shown(tag, d))
    case Sequence(_, elem) =>
      v.VSub? && |v.elems| == |d.kids| && forall i :: 0 <= i < |d.kids| ==> Built(objs, elem, d.kids[i], v.elems[i])
    case TupleOf(elems) =>
      v.VSub? && |v.elems| == |d.kids| && forall i :: 0 <= i < |elems| ==> Built(objs, elems[i], d.kids[i], v.elems[i])
  }

  // ---------------------------------------------------------------- when the counts are right

  /** The element counts of t are those of d, wherever there is a container in d. */
  predicate Fits(c: CppType, t: DType, d: Tree)
    requires OfType(c, d) && Matches(c, t)
    decreases c
  {
    match c
    case Scalar(_) => true
    case Sequence(_, elem) => t.numElements == |d.kids| && forall i :: 0 <= i < |d.kids| ==>
      Fits(elem, t.subtype[0], d.kids[i])
    case TupleOf(elems) => forall i :: 0 <= i < |elems| ==> Fits(elems[i], t.subtype[i], d.kids[i])
  }

  /** Two objects of one type whose containers can share descriptors: those at one place of the type
      are all of one length. */
  predicate Alike(c: CppType, x: Tree, y: Tree)
    requires OfType(c, x) && OfType(c, y)
    decreases c
  {
    match c
    case Scalar(_) => true
    case Sequence(_, elem) =>
      |x.kids| == |y.kids| && forall i, j :: 0 <= i < |x.kids| && 0 <= j < |y.kids| ==>
        Alike(elem, x.kids[i], y.kids[j])
    case TupleOf(elems) => forall i :: 0 <= i < |elems| ==> Alike(elems[i], x.kids[i], y.kids[i])
  }

  /** Sibling containers in d have equal lengths. */
  predicate Uniform(c: CppType, d: Tree)
    requires OfType(c, d)
  {
    Alike(c, d, d)
  }

  lemma {:induction false} FitTogetherAreAlike(c: CppType, t: DType, x: Tree, y: Tree)
    requires OfType(c, x) && OfType(c, y) && Matches(c, t) && Fits(c, t, x) && Fits(c, t, y)
    ensures Alike(c, x, y)
    decreases c
  {
    match c
    case Scalar(_) =>
    case Sequence(_, elem) =>
      forall i, j | 0 <= i < |x.kids| && 0 <= j < |y.kids| ensures Alike(elem, x.kids[i], y.kids[j]) {
        FitTogetherAreAlike(elem, t.subtype[0], x.kids[i], y.kids[j]);
      }
    case TupleOf(elems) =>
      forall i | 0 <= i < |elems| ensures Alike(elems[i], x.kids[i], y.kids[i]) {
        FitTogetherAreAlike(elems[i], t.subtype[i], x.kids[i], y.kids[i]);
      }
  }

  /** Building y leaves right counts for y, and keeps them right for an x that is like y. */
  lemma {:induction false} BuildingFits(c: CppType, t: DType, y: Tree)
    requires OfType(c, y) && Matches(c, t) && Uniform(c, y)
    ensures Fits(c, FinalType(c, y, t), y)
    decreases c, 1, 0
  {
    match c
    case Scalar(_) =>
    case Sequence(_, elem) => BuildingFitsFirst(elem, t.subtype[0], y.kids, |y.kids|);
    case TupleOf(elems) =>
      forall i | 0 <= i < |elems| ensures Fits(elems[i], FinalType(elems[i], y.kids[i], t.subtype[i]), y.kids[i]) {
        BuildingFits(elems[i], t.subtype[i], y.kids[i]);
      }
  }

  lemma {:induction false} BuildingFitsFirst(c: CppType, t: DType, kids: seq<Tree>, n: nat)
    requires n <= |kids| && (forall i :: 0 <= i < |kids| ==> OfType(c, kids[i])) && Matches(c, t)
    requires forall i, j :: 0 <= i < |kids| && 0 <= j < |kids| ==> Alike(c, kids[i], kids[j])
    ensures forall i :: 0 <= i < n ==> Fits(c, FinalAfter(c, kids, n, t), kids[i])
    decreases c, 2, n
  {
    if n > 0 {
      var before := FinalAfter(c, kids, n - 1, t);
      BuildingFitsFirst(c, t, kids, n - 1);
      BuildingFits(c, before, kids[n - 1]);
      forall i | 0 <= i < n - 1 ensures Fits(c, FinalType(c, kids[n - 1], before), kids[i]) {
        BuildingKeeps(c, before, kids[i], kids[n - 1]);
      }
    }
  }

  lemma {:induction false} BuildingKeeps(c: CppType, t: DType, x: Tree, y: Tree)
    requires OfType(c, x) && OfType(c, y) && Matches(c, t) && Fits(c, t, x) && Alike(c, x, y)
    ensures Fits(c, FinalType(c, y, t), x)
    decreases c, 1, 0
  {
    match c
    case Scalar(_) =>
    case Sequence(_, elem) =>
      forall i | 0 <= i < |x.kids| ensures Fits(elem, FinalAfter(elem, y.kids, |y.kids|, t.subtype[0]), x.kids[i]) {
        BuildingKeepsFirst(elem, t.subtype[0], x.kids[i], y.kids, |y.kids|);
      }
    case TupleOf(elems) =>
      forall i | 0 <= i < |elems| ensures Fits(elems[i], FinalType(elems[i], y.kids[i], t.subtype[i]), x.kids[i]) {
        BuildingKeeps(elems[i], t.subtype[i], x.kids[i], y.kids[i]);
      }
  }

  lemma {:induction false} BuildingKeepsFirst(c: CppType, t: DType, x: Tree, ys: seq<Tree>, n: nat)
    requires n <= |ys| && (forall i :: 0 <= i < |ys| ==> OfType(c, ys[i])) && OfType(c, x) && Matches(c, t)
    requires Fits(c, t, x) && forall i :: 0 <= i < |ys| ==> Alike(c, x, ys[i])
    ensures Fits(c, FinalAfter(c, ys, n, t), x)
    decreases c, 2, n
  {
    if n > 0 {
      BuildingKeepsFirst(c, t, x, ys, n - 1);
      BuildingKeeps(c, FinalAfter(c, ys, n - 1, t), x, ys[n - 1]);
    }
  }

  // ---------------------------------------------------------------- reading what was built

  /** What was built from d reads as d, with the documented casts, exactly if the counts of the type are
      those of d, and d can be represented. */
  lemma {:induction false} ReadOfBuilt(objs: Objs, mem: seq<Byte>, c: CppType, t: DType, d: Tree, v: Value)
    requires Supported(c) && OfType(c, d) && Matches(c, t) && Built(objs, c, d, v)
    ensures ReadBack(objs, mem, t, v) == Some(d) <==> Fits(c, t, d) && Representable(c, d)
    decreases c, 1, 0
  {
    if c.Scalar? {
      ShownReads(c.tag, t, d);
    } else {
      ReadOfBuiltFrom(objs, mem, c, t, d, v, 0);
      assert d.kids[0..] == d.kids;
      FitsEach(c, t, d);
      RepresentableEach(c, d);
    }
  }

  /** No visit fails if the counts are right. */
  lemma {:induction false} BuiltWalks(objs: Objs, mem: seq<Byte>, c: CppType, t: DType, d: Tree, v: Value)
    requires Supported(c) && OfType(c, d) && Matches(c, t) && Built(objs, c, d, v) && Fits(c, t, d)
    ensures Walk(objs, mem, t, v).Some?
    decreases c, 1, 0
  {
    if !c.Scalar? {
      FitsEach(c, t, d);
      BuiltWalksFrom(objs, mem, c, t, d, v, 0);
    }
  }

  lemma {:induction false} BuiltWalksFrom(objs: Objs, mem: seq<Byte>, c: CppType, t: DType, d: Tree, v: Value, i: nat)
    requires Supported(c) && OfType(c, d) && Matches(c, t) && Built(objs, c, d, v) && !c.Scalar?
    requires i <= |d.kids| && FitsFrom(c, t, d, i)
    ensures WalkFrom(objs, mem, t, v, i).Some?
    decreases c, 0, |d.kids| - i
  {
    if i < |d.kids| {
      ElemFitsComponent(c, t, d, i);
      OneMoreFits(c, t, d, i);
      assert Subval(mem, t, v, i) == Some(v.elems[i]);
      BuiltWalks(objs, mem, ElemAt(c, i), Component(t, i), d.kids[i], v.elems[i]);
      BuiltWalksFrom(objs, mem, c, t, d, v, i + 1);
    }
  }

  /** Every element from i on can be represented. */
  predicate RepresentableFrom(c: CppType, d: Tree, i: nat)
    requires OfType(c, d) && !c.Scalar?
  {
    forall k :: i <= k < |d.kids| ==> ElemRepresentable(c, d, k)
  }

  predicate ElemRepresentable(c: CppType, d: Tree, k: nat)
    requires OfType(c, d) && !c.Scalar? && k < |d.kids|
  {
    Representable(ElemAt(c, k), d.kids[k])
  }

  lemma RepresentableEach(c: CppType, d: Tree)
    requires OfType(c, d) && !c.Scalar?
    ensures RepresentableFrom(c, d, 0) <==> Representable(c, d)
  {
    if RepresentableFrom(c, d, 0) {
      forall k | 0 <= k < |d.kids| ensures Representable(ElemAt(c, k), d.kids[k]) {
        assert ElemRepresentable(c, d, k);
      }
    }
  }

  /** Fits for the elements from i on, and for the number of them. */
  predicate FitsFrom(c: CppType, t: DType, d: Tree, i: nat)
    requires OfType(c, d) && Matches(c, t) && !c.Scalar?
  {
    t.numElements == |d.kids| && forall k :: i <= k < |d.kids| ==> ElemFits(c, t, d, k)
  }

  predicate ElemFits(c: CppType, t: DType, d: Tree, k: nat)
    requires OfType(c, d) && Matches(c, t) && !c.Scalar? && k < |d.kids|
  {
    k < t.numElements && Fits(ElemAt(c, k), if c.Sequence? then t.subtype[0] else t.subtype[k], d.kids[k])
  }

  lemma FitsEach(c: CppType, t: DType, d: Tree)
    requires OfType(c, d) && Matches(c, t) && !c.Scalar?
    ensures FitsFrom(c, t, d, 0) <==> Fits(c, t, d)
  {
    if FitsFrom(c, t, d, 0) {
      forall i | 0 <= i < |d.kids|
        ensures Fits(ElemAt(c, i), if c.Sequence? then t.subtype[0] else t.subtype[i], d.kids[i])
      {
        assert ElemFits(c, t, d, i);
      }
    }
    if Fits(c, t, d) {
      forall i | 0 <= i < |d.kids| ensures ElemFits(c, t, d, i) {
        assert c.TupleOf? ==> Fits(c.elems[i], t.subtype[i], d.kids[i]);
      }
    }
  }

  lemma {:induction false} ReadOfBuiltFrom(objs: Objs, mem: seq<Byte>, c: CppType, t: DType, d: Tree, v: Value, i: nat)
    requires Supported(c) && OfType(c, d) && Matches(c, t) && Built(objs, c, d, v) && !c.Scalar?
    requires i <= |d.kids| && i <= t.numElements
    ensures ReadFrom(objs, mem, t, v, i) == Some(d.kids[i..]) <==> FitsFrom(c, t, d, i) && RepresentableFrom(c, d, i)
    decreases c, 0, |d.kids| - i
  {
    if i < t.numElements {
      MatchesComponent(c, t, i);
      ReadFromStep(objs, mem, t, v, i);
      if i < |d.kids| {
        var e, st := ElemAt(c, i), Component(t, i);
        assert Subval(mem, t, v, i) == Some(v.elems[i]);
        ReadOfBuilt(objs, mem, e, st, d.kids[i], v.elems[i]);
        ReadOfBuiltFrom(objs, mem, c, t, d, v, i + 1);
        assert d.kids[i..][1..] == d.kids[i + 1..];
        ConsIs(ReadBack(objs, mem, st, v.elems[i]), ReadFrom(objs, mem, t, v, i + 1), d.kids[i..]);
        ElemFitsComponent(c, t, d, i);
        OneMoreFits(c, t, d, i);
        OneMoreRepresentable(c, d, i);
      } else {
        assert Subval(mem, t, v, i) == None;
      }
    }
  }

  lemma OneMoreFits(c: CppType, t: DType, d: Tree, i: nat)
    requires OfType(c, d) && Matches(c, t) && !c.Scalar? && i < |d.kids|
    ensures FitsFrom(c, t, d, i) <==> ElemFits(c, t, d, i) && FitsFrom(c, t, d, i + 1)
  {
  }

  lemma ElemFitsComponent(c: CppType, t: DType, d: Tree, i: nat)
    requires OfType(c, d) && Matches(c, t) && !c.Scalar? && i < |d.kids| && i < t.numElements
    ensures HasComponent(t, i) && Matches(ElemAt(c, i), Component(t, i))
    ensures ElemFits(c, t, d, i) <==> Fits(ElemAt(c, i), Component(t, i), d.kids[i])
  {
    MatchesComponent(c, t, i);
  }

  lemma OneMoreRepresentable(c: CppType, d: Tree, i: nat)
    requires OfType(c, d) && !c.Scalar? && i < |d.kids|
    ensures RepresentableFrom(c, d, i) <==> Representable(ElemAt(c, i), d.kids[i]) && RepresentableFrom(c, d, i + 1)
  {
    assert RepresentableFrom(c, d, i) <==> ElemRepresentable(c, d, i) && RepresentableFrom(c, d, i + 1);
  }

  lemma ConsIs(x: Option<Tree>, xs: Option<seq<Tree>>, trees: seq<Tree>)
    requires trees != []
    ensures Cons(x, xs) == Some(trees) <==> x == Some(trees[0]) && xs == Some(trees[1..])
  {
    assert trees == [trees[0]] + trees[1..];
    if x.Some? && xs.Some? {
      assert ([x.value] + xs.value)[1..] == xs.value;
    }
  }

  // ---------------------------------------------------------------- the blocks of what was built

  /** How many blocks the value of an object takes up: one for each container and for each string or time. */
  function BuiltSpan(c: CppType, d: Tree): nat
    requires OfType(c, d)
    decreases c, 1, 0
  {
    if c.Scalar? then (if IsText(c.tag) || c.tag.Timeval? then 1 else 0) else 1 + BuiltSpanFirst(c, d, |d.kids|)
  }

  function BuiltSpanFirst(c: CppType, d: Tree, n: nat): nat
    requires OfType(c, d) && !c.Scalar? && n <= |d.kids|
    decreases c, 0, n
  {
    if n == 0 then 0 else BuiltSpanFirst(c, d, n - 1) + BuiltSpan(ElemAt(c, n - 1), d.kids[n - 1])
  }

  /** The blocks of v are named from base on, in the order in which the builder allocates them. */
  predicate Laid(c: CppType, d: Tree, v: Value, base: nat)
    requires OfType(c, d)
    decreases c, 1, 0
  {
    if c.Scalar? then (IsText(c.tag) || c.tag.Timeval? ==> v == VPtr(base))
    else v.VSub? && v.arr == base && |v.elems| == |d.kids| && LaidFirst(c, d, v.elems, |d.kids|, base + 1)
  }

  predicate LaidFirst(c: CppType, d: Tree, vs: seq<Value>, n: nat, base: nat)
    requires OfType(c, d) && !c.Scalar? && n <= |d.kids|
    decreases c, 0, n
  {
    n == 0 || (
      && n <= |vs| && LaidFirst(c, d, vs, n - 1, base)
      && Laid(ElemAt(c, n - 1), d.kids[n - 1], vs[n - 1], base + BuiltSpanFirst(c, d, n - 1)))
  }

  lemma {:induction false} LaidAppend(c: CppType, d: Tree, vs: seq<Value>, v: Value, n: nat, base: nat)
    requires OfType(c, d) && !c.Scalar? && n <= |vs| && n <= |d.kids|
    ensures LaidFirst(c, d, vs, n, base) ==> LaidFirst(c, d, vs + [v], n, base)
  {
    if n > 0 {
      LaidAppend(c, d, vs, v, n - 1, base);
    }
  }

  /** The value is what the descriptor says, block by block, exactly if the counts of the descriptor are
      those of the object: otherwise a release by the descriptor does not fit the value. */
  lemma {:induction false} PlacedIfFits(c: CppType, t: DType, d: Tree, v: Value, base: nat)
    requires OfType(c, d) && Matches(c, t) && Laid(c, d, v, base)
    ensures Placed(t, v, base) <==> Fits(c, t, d)
    ensures Fits(c, t, d) ==> ValueSpan(t, v) == BuiltSpan(c, d)
    decreases c, 1, 0
  {
    if !c.Scalar? {
      FitsEach(c, t, d);
      if t.numElements == |d.kids| {
        PlacedIfFitsFirst(c, t, d, v.elems, |d.kids|, base + 1);
      }
    }
  }

  predicate FitsFirst(c: CppType, t: DType, d: Tree, n: nat)
    requires OfType(c, d) && Matches(c, t) && !c.Scalar? && n <= |d.kids|
  {
    forall k :: 0 <= k < n ==> ElemFits(c, t, d, k)
  }

  lemma FitsOneMore(c: CppType, t: DType, d: Tree, n: nat)
    requires OfType(c, d) && Matches(c, t) && !c.Scalar? && n < |d.kids|
    ensures FitsFirst(c, t, d, n + 1) <==> FitsFirst(c, t, d, n) && ElemFits(c, t, d, n)
  {
  }

  lemma {:induction false} PlacedIfFitsFirst(c: CppType, t: DType, d: Tree, vs: seq<Value>, n: nat, base: nat)
    requires OfType(c, d) && Matches(c, t) && !c.Scalar? && t.numElements == |d.kids| && n <= |d.kids|
    requires LaidFirst(c, d, vs, n, base)
    ensures PlacedElems(t, vs, n, base) <==> FitsFirst(c, t, d, n)
    ensures PlacedElems(t, vs, n, base) ==> SpanOfElems(t, vs, n) == BuiltSpanFirst(c, d, n)
    decreases c, 0, n
  {
    if n > 0 {
      PlacedIfFitsFirst(c, t, d, vs, n - 1, base);
      FitsOneMore(c, t, d, n - 1);
      LastIfFits(c, t, d, vs, n - 1, base + BuiltSpanFirst(c, d, n - 1));
      OneMorePlaced(t, vs, n, base);
    }
  }

  /** One element. */
  lemma {:induction false} LastIfFits(c: CppType, t: DType, d: Tree, vs: seq<Value>, k: nat, base: nat)
    requires OfType(c, d) && Matches(c, t) && !c.Scalar? && t.numElements == |d.kids| && k < |d.kids| && k < |vs|
    requires Laid(ElemAt(c, k), d.kids[k], vs[k], base)
    ensures HasComponent(t, k) && k < NumSubvals(t) && (Placed(Component(t, k), vs[k], base) <==> ElemFits(c, t, d, k))
    ensures ElemFits(c, t, d, k) ==> ValueSpan(Component(t, k), vs[k]) == BuiltSpan(ElemAt(c, k), d.kids[k])
    decreases c, 0, 0
  {
    ElemFitsComponent(c, t, d, k);
    PlacedIfFits(ElemAt(c, k), Component(t, k), d.kids[k], vs[k], base);
  }

  lemma OneMorePlaced(t: DType, vs: seq<Value>, n: nat, base: nat)
    requires 0 < n <= |vs| && n <= NumSubvals(t) && HasComponent(t, n - 1)
    ensures SpanOfElems(t, vs, n) == SpanOfElems(t, vs, n - 1) + ValueSpan(Component(t, n - 1), vs[n - 1])
    ensures PlacedElems(t, vs, n, base)
       <==> PlacedElems(t, vs, n - 1, base)
            && Placed(Component(t, n - 1), vs[n - 1], base + SpanOfElems(t, vs, n - 1))
  {
  }

  // ---------------------------------------------------------------- building

  lemma {:induction false} BuiltExtends(objs: Objs, more: Objs, c: CppType, d: Tree, v: Value)
    requires Supported(c) && OfType(c, d) && Built(objs, c, d, v) && Extends(objs, more)
    ensures Built(more, c, d, v)
    decreases c
  {
    match c
    case Scalar(_) =>
    case Sequence(_, elem) =>
      forall i | 0 <= i < |d.kids| ensures Built(more, elem, d.kids[i], v.elems[i]) {
        BuiltExtends(objs, more, elem, d.kids[i], v.elems[i]);
      }
    case TupleOf(elems) =>
      forall i | 0 <= i < |elems| ensures Built(more, elems[i], d.kids[i], v.elems[i]) {
        BuiltExtends(objs, more, elems[i], d.kids[i], v.elems[i]);
      }
  }

  /** element_type<T>::set: strings up to their terminator and times are duplicated, and
      a number is converted to the signed member. */
  method SetElement(tag: Tag, d: Tree, h0: Heap) returns (v: Value, h: Heap)
    requires Supported(Scalar(tag)) && OfType(Scalar(tag), d) && h0.Valid()
    ensures h0.GrowsTo(h) && Built(h.objs, Scalar(tag), d, v)
    ensures h.next == h0.next + BuiltSpan(Scalar(tag), d) && Laid(Scalar(tag), d, v, h0.next)
  {
    h := h0;
    if IsText(tag) {
      v := VPtr(h.next);
      h := h.Malloc(Text(CStr(d.s)));
    } else if tag.Timeval? {
      v := VPtr(h.next);
      h := h.Malloc(Time(d.sec, d.usec));
    } else if tag.Double? {
      v := VDouble(d.number);
    } else if tag.Long? || tag.ULong? || tag.Date? {
      v := VLong(Signed(tag, d.i));
    } else if tag.LongLong? || tag.ULongLong? {
      v := VLongLong(Signed(tag, d.i));
    } else {
      v := VInt(Signed(tag, d.i));
    }
  }

  /** vs are the values of the first elements of a container; their blocks are named from base to next. */
  ghost predicate Filled(objs: Objs, c: CppType, d: Tree, vs: seq<Value>, base: nat, next: nat)
    requires Supported(c) && OfType(c, d) && !c.Scalar?
  {
    && |vs| <= |d.kids| && ElemsBuilt(objs, c, d, vs)
    && LaidFirst(c, d, vs, |vs|, base) && next == base + BuiltSpanFirst(c, d, |vs|)
  }

  ghost predicate ElemsBuilt(objs: Objs, c: CppType, d: Tree, vs: seq<Value>)
    requires Supported(c) && OfType(c, d) && !c.Scalar? && |vs| <= |d.kids|
  {
    forall i :: 0 <= i < |vs| ==> ElemBuilt(objs, c, d, vs, i)
  }

  ghost predicate ElemBuilt(objs: Objs, c: CppType, d: Tree, vs: seq<Value>, i: nat)
    requires Supported(c) && OfType(c, d) && !c.Scalar? && i < |vs| <= |d.kids|
  {
    Built(objs, ElemAt(c, i), d.kids[i], vs[i])
  }

  lemma ElemStaysBuilt(objs: Objs, more: Objs, c: CppType, d: Tree, vs: seq<Value>, x: Value, i: nat)
    requires Supported(c) && OfType(c, d) && !c.Scalar? && i < |vs| < |d.kids|
    requires ElemBuilt(objs, c, d, vs, i) && Extends(objs, more)
    ensures ElemBuilt(more, c, d, vs + [x], i)
  {
    BuiltExtends(objs, more, ElemAt(c, i), d.kids[i], vs[i]);
  }

  lemma BuiltByOne(objs: Objs, more: Objs, c: CppType, d: Tree, vs: seq<Value>, x: Value)
    requires Supported(c) && OfType(c, d) && !c.Scalar? && |vs| < |d.kids| && Extends(objs, more)
    requires ElemsBuilt(objs, c, d, vs) && Built(more, ElemAt(c, |vs|), d.kids[|vs|], x)
    ensures ElemsBuilt(more, c, d, vs + [x])
  {
    forall i | 0 <= i < |vs| + 1 ensures ElemBuilt(more, c, d, vs + [x], i) {
      if i < |vs| {
        ElemStaysBuilt(objs, more, c, d, vs, x, i);
      }
    }
  }

  lemma LaidByOne(c: CppType, d: Tree, vs: seq<Value>, x: Value, base: nat)
    requires OfType(c, d) && !c.Scalar? && |vs| < |d.kids| && LaidFirst(c, d, vs, |vs|, base)
    requires Laid(ElemAt(c, |vs|), d.kids[|vs|], x, base + BuiltSpanFirst(c, d, |vs|))
    ensures LaidFirst(c, d, vs + [x], |vs| + 1, base)
  {
    LaidAppend(c, d, vs, x, |vs|, base);
  }

  lemma FilledByOne(objs: Objs, more: Objs, c: CppType, d: Tree, vs: seq<Value>, x: Value, base: nat, next: nat,
      next1: nat)
    requires Supported(c) && OfType(c, d) && !c.Scalar?
    requires Filled(objs, c, d, vs, base, next) && |vs| < |d.kids| && Extends(objs, more)
    requires Built(more, ElemAt(c, |vs|), d.kids[|vs|], x) && Laid(ElemAt(c, |vs|), d.kids[|vs|], x, next)
    requires next1 == next + BuiltSpan(ElemAt(c, |vs|), d.kids[|vs|])
    ensures Filled(more, c, d, vs + [x], base, next1)
  {
    BuiltByOne(objs, more, c, d, vs, x);
    LaidByOne(c, d, vs, x, base);
    SpanByOne(c, d, |vs|);
    assert |vs + [x]| == |vs| + 1;
  }

  lemma SpanByOne(c: CppType, d: Tree, n: nat)
    requires OfType(c, d) && !c.Scalar? && n < |d.kids|
    ensures BuiltSpanFirst(c, d, n + 1) == BuiltSpanFirst(c, d, n) + BuiltSpan(ElemAt(c, n), d.kids[n])
  {
  }

  lemma BuiltWhenFilled(objs: Objs, c: CppType, d: Tree, vs: seq<Value>, base: nat, next: nat)
    requires Supported(c) && OfType(c, d) && !c.Scalar? && |vs| == |d.kids|
    requires Filled(objs, c, d, vs, base + 1, next)
    ensures Built(objs, c, d, VSub(base, vs)) && Laid(c, d, VSub(base, vs), base) && next == base + BuiltSpan(c, d)
  {
    forall i | 0 <= i < |vs| ensures Built(objs, ElemAt(c, i), d.kids[i], vs[i]) {
      assert ElemBuilt(objs, c, d, vs, i);
    }
  }

  /** parse<T>::make_value. The descriptor is passed in and out: its counts are overwritten. */
  method MakeValue(c: CppType, d: Tree, t0: DType, h0: Heap) returns (v: Value, t: DType, h: Heap)
    requires Supported(c) && OfType(c, d) && Matches(c, t0) && h0.Valid()
    ensures t == FinalType(c, d, t0)
    ensures h0.GrowsTo(h) && Built(h.objs, c, d, v)
    ensures h.next == h0.next + BuiltSpan(c, d) && Laid(c, d, v, h0.next)
    decreases c, 3, 1
  {
    if c.Scalar? {
      t := t0;
      v, h := SetElement(c.tag, d, h0);
    } else {
      var values;
      values, t, h := MakeArray(c, d, t0, h0);
      v := VSub(h0.next, values);
      BuiltWhenFilled(h.objs, c, d, values, h0.next, h.next);
    }
  }

  /** The make_value of a container: the array, and then its elements. */
  method MakeArray(c: CppType, d: Tree, t0: DType, h0: Heap) returns (values: seq<Value>, t: DType, h: Heap)
    requires !c.Scalar? && Supported(c) && OfType(c, d) && Matches(c, t0) && h0.Valid()
    ensures t == FinalType(c, d, t0) && h0.GrowsTo(h)
    ensures |values| == |d.kids| && Filled(h.objs, c, d, values, h0.next + 1, h.next)
    decreases c, 3, 0
  {
    h := h0.Malloc(Raw);
    if c.Sequence? {
      var subtype;
      values, subtype, h := FillArray(c, d, t0.subtype[0], h);
      t := t0.(subtype := [subtype], numElements := |d.kids|);
    } else {
      var subtypes;
      values, subtypes, h := SetTuple(c, d, |c.elems|, t0.subtype, h);
      t := t0.(subtype := subtypes);
      assert subtypes == FinalType(c, d, t0).subtype;
    }
  }

  /** Element i, after the ones before it. */
  method MakeElement(c: CppType, d: Tree, i: nat, ghost vs: seq<Value>, ghost base: nat, t0: DType, h0: Heap)
    returns (x: Value, t: DType, h: Heap)
    requires !c.Scalar? && Supported(c) && OfType(c, d) && i == |vs| < |d.kids|
    requires Matches(ElemAt(c, i), t0) && h0.Valid() && Filled(h0.objs, c, d, vs, base, h0.next)
    ensures t == FinalType(ElemAt(c, i), d.kids[i], t0)
    ensures h0.GrowsTo(h) && Filled(h.objs, c, d, vs + [x], base, h.next)
    decreases c, 1, 0
  {
    x, t, h := MakeValue(ElemAt(c, i), d.kids[i], t0, h0);
    FilledByOne(h0.objs, h.objs, c, d, vs, x, base, h0.next, h.next);
  }

  /** The loop of create_container_type<T>::make_value: every element is built with the one subtype. */
  method FillArray(c: CppType, d: Tree, subtype0: DType, h0: Heap)
    returns (valarray: seq<Value>, subtype: DType, h: Heap)
    requires c.Sequence? && Supported(c) && OfType(c, d) && Matches(c.elem, subtype0) && h0.Valid()
    ensures subtype == FinalAfter(c.elem, d.kids, |d.kids|, subtype0)
    ensures h0.GrowsTo(h) && |valarray| == |d.kids|
    ensures Filled(h.objs, c, d, valarray, h0.next, h.next)
    decreases c, 2, 0
  {
    valarray, subtype, h := [], subtype0, h0;
    for j := 0 to |d.kids|
      invariant subtype == FinalAfter(c.elem, d.kids, j, subtype0)
      invariant h0.GrowsTo(h) && |valarray| == j && Filled(h.objs, c, d, valarray, h0.next, h.next)
    {
      var x;
      x, subtype, h := MakeElement(c, d, j, valarray, h0.next, subtype, h);
      valarray := valarray + [x];
    }
  }

  predicate AllMatch(c: CppType, ts: seq<DType>)
    requires c.TupleOf? && |ts| == |c.elems|
  {
    forall i :: 0 <= i < |ts| ==> Matches(c.elems[i], ts[i])
  }

  /** The subtypes of a tuple after its first n elements have been built. */
  predicate SubtypesAfter(c: CppType, d: Tree, n: nat, ts: seq<DType>, subtypes: seq<DType>)
    requires c.TupleOf? && OfType(c, d) && n <= |c.elems| == |ts| == |subtypes|
    requires AllMatch(c, ts)
  {
    && (forall i :: 0 <= i < n ==> subtypes[i] == FinalType(c.elems[i], d.kids[i], ts[i]))
    && (forall i :: n <= i < |ts| ==> subtypes[i] == ts[i])
  }

  /** set_tuple_type<T, n>::setvalue: the elements before n - 1 first, then element n - 1. */
  method SetTuple(c: CppType, d: Tree, n: nat, ts: seq<DType>, h0: Heap)
    returns (values: seq<Value>, subtypes: seq<DType>, h: Heap)
    requires c.TupleOf? && Supported(c) && OfType(c, d) && n <= |c.elems| == |ts| && h0.Valid()
    requires AllMatch(c, ts)
    ensures |values| == n && |subtypes| == |ts| && h0.GrowsTo(h)
    ensures SubtypesAfter(c, d, n, ts, subtypes) && Filled(h.objs, c, d, values, h0.next, h.next)
    decreases c, 2, n
  {
    if n == 0 {
      return [], ts, h0;
    }
    values, subtypes, h := SetTuple(c, d, n - 1, ts, h0);
    var x, st;
    assert subtypes[n - 1] == ts[n - 1];
    x, st, h := MakeElement(c, d, n - 1, values, h0.next, subtypes[n - 1], h);
    OneMoreSubtype(c, d, n, ts, subtypes);
    values, subtypes := values + [x], subtypes[n - 1 := st];
  }

  lemma OneMoreSubtype(c: CppType, d: Tree, n: nat, ts: seq<DType>, subtypes: seq<DType>)
    requires c.TupleOf? && OfType(c, d) && 0 < n <= |c.elems| == |ts| == |subtypes| && AllMatch(c, ts)
    requires SubtypesAfter(c, d, n - 1, ts, subtypes)
    ensures SubtypesAfter(c, d, n, ts, subtypes[n - 1 := FinalType(c.elems[n - 1], d.kids[n - 1], ts[n - 1])])
  {
  }

  /** The counts of the type are right in the end exactly if sibling containers have equal lengths. */
  lemma UniformIfFits(c: CppType, t: DType, d: Tree)
    requires OfType(c, d) && Matches(c, t)
    ensures Fits(c, FinalType(c, d, t), d) <==> Uniform(c, d)
  {
    if Uniform(c, d) {
      BuildingFits(c, t, d);
    }
    if Fits(c, FinalType(c, d, t), d) {
      FitTogetherAreAlike(c, FinalType(c, d, t), d, d);
    }
  }

  lemma BuiltReads(objs: Objs, mem: seq<Byte>, c: CppType, t: DType, d: Tree, v: Value)
    requires Supported(c) && OfType(c, d) && Matches(c, t) && Built(objs, c, d, v)
    ensures ReadBack(objs, mem, FinalType(c, d, t), v) == Some(d) <==> Uniform(c, d) && Representable(c, d)
  {
    UniformIfFits(c, t, d);
    ReadOfBuilt(objs, mem, c, FinalType(c, d, t), d, v);
  }
}
