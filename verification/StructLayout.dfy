/** Where a C compiler puts the members of a struct, next to where the library reads the components of a
    tuple: the library leaves no padding. */
module StructLayout {
  import opened AdiakTypes
  import opened Layout

  /** The least multiple of a from x on. */
  function RoundUp(x: nat, a: nat): nat
    requires a > 0
  {
    if x % a == 0 then x else x + a - x % a
  }

  /** The alignment of a type under LP64: a number or a pointer has its size, an array that of its
      elements, a struct the largest of its members. */
  function Align(t: DType): (a: nat)
    ensures a > 0
    decreases t, |t.subtype| + 1
  {
    if !IsContainer(t.tag) then (if t.numBytes > 0 then t.numBytes else 1)
    else if t.tag.Tuple? then AlignFirst(t.subtype, |t.subtype|)
    else if t.subtype == [] then 1 else Align(t.subtype[0])
  }

  function AlignFirst(ts: seq<DType>, n: nat): (a: nat)
    requires n <= |ts|
    ensures a > 0
    decreases ts, n
  {
    if n == 0 then 1
    else if Align(ts[n - 1]) > AlignFirst(ts, n - 1) then Align(ts[n - 1])
    else AlignFirst(ts, n - 1)
  }

  /** The size of the C object. */
  function StructSize(t: DType): nat
    decreases t, NumSubvals(t) + 1
  {
    if !IsContainer(t.tag) then t.numBytes
    else if t.tag.Tuple? then RoundUp(StructEnd(t, NumSubvals(t)), Align(t))
    else StructEnd(t, NumSubvals(t))
  }

  /** Where component i of a container starts in the C object. */
  function StructOffset(t: DType, i: nat): nat
    requires HasComponent(t, i)
    decreases t, i, 1
  {
    if t.tag.Tuple? then RoundUp(StructEnd(t, i), Align(Component(t, i))) else StructEnd(t, i)
  }

  /** Where the first i components end. */
  function StructEnd(t: DType, i: nat): nat
    decreases t, i, 0
  {
    if i == 0 || !HasComponent(t, i - 1) then 0 else StructOffset(t, i - 1) + StructSize(Component(t, i - 1))
  }

  predicate SameAt(t: DType, i: nat) {
    HasComponent(t, i) ==> StructOffset(t, i) == Offset(t, i)
  }

  predicate AlignedAt(t: DType, i: nat) {
    HasComponent(t, i) ==> Offset(t, i) % Align(Component(t, i)) == 0
  }

  /** The two layouts are the same, at every level. */
  predicate SameLayout(t: DType) {
    && StructSize(t) == Size(t) && SameUpTo(t, NumSubvals(t))
    && (forall k :: 0 <= k < |t.subtype| ==> SameLayout(t.subtype[k]))
  }

  /** No padding is needed: in every tuple each component is aligned at its packed offset, and the packed
      size is a multiple of the alignment. */
  predicate NeedsNoPadding(t: DType) {
    && (t.tag.Tuple? ==> Size(t) % Align(t) == 0 && AlignedUpTo(t, NumSubvals(t)))
    && (forall k :: 0 <= k < |t.subtype| ==> NeedsNoPadding(t.subtype[k]))
  }

  predicate AlignedUpTo(t: DType, n: nat) {
    forall i: nat :: i < n ==> AlignedAt(t, i)
  }

  predicate SameUpTo(t: DType, n: nat) {
    forall i: nat :: i < n ==> SameAt(t, i)
  }

  lemma OneMoreOffset(t: DType, i: nat)
    requires HasComponent(t, i) && StructEnd(t, i) == Offset(t, i) &&
        StructSize(Component(t, i)) == Size(Component(t, i))
    ensures SameAt(t, i) <==> (t.tag.Tuple? ==> AlignedAt(t, i))
    ensures SameAt(t, i) ==> StructEnd(t, i + 1) == Offset(t, i + 1)
  {
  }

  predicate SameSizeAt(t: DType, i: nat) {
    HasComponent(t, i) && StructSize(Component(t, i)) == Size(Component(t, i))
  }

  lemma {:induction false} SameOffsets(t: DType, n: nat)
    requires forall i: nat :: i < n ==> SameSizeAt(t, i)
    ensures SameUpTo(t, n) <==> (t.tag.Tuple? ==> AlignedUpTo(t, n))
    ensures SameUpTo(t, n) ==> StructEnd(t, n) == Offset(t, n)
  {
    if n > 0 {
      SameOffsets(t, n - 1);
      assert SameSizeAt(t, n - 1);
      if SameUpTo(t, n - 1) {
        OneMoreOffset(t, n - 1);
      }
    }
  }

  /** What the library reads is what a C compiler has laid out if and only if no padding is needed. */
  lemma {:induction false} PackedExactly(t: DType)
    requires Shaped(t)
    ensures SameLayout(t) <==> NeedsNoPadding(t)
  {
    forall k | 0 <= k < |t.subtype| ensures SameLayout(t.subtype[k]) <==> NeedsNoPadding(t.subtype[k]) {
      PackedExactly(t.subtype[k]);
    }
    if IsContainer(t.tag) && (forall k :: 0 <= k < |t.subtype| ==> SameLayout(t.subtype[k])) {
      forall i: nat | i < NumSubvals(t) ensures SameSizeAt(t, i) {
        ShapedComponent(t, i);
      }
      SameOffsets(t, NumSubvals(t));
      assert Size(t) == Offset(t, NumSubvals(t));
    }
  }

  /** The struct of the header's example: the string is read four bytes before the place it has. */
  lemma HeaderExampleNeedsPadding(t: DType)
    requires t == DType(Tuple, Categorical, 2, [BASE_INT, BASE_STRING], false, 0, 0)
    ensures Shaped(t) && Offset(t, 1) == 4 && StructOffset(t, 1) == 8 && Size(t) == 12 && StructSize(t) == 16
    ensures !SameLayout(t)
  {
    assert Component(t, 0) == BASE_INT && Component(t, 1) == BASE_STRING;
    assert Offset(t, 0) == 0 && StructEnd(t, 0) == 0 && StructOffset(t, 0) == 0;
    assert Offset(t, 1) == 4 && StructEnd(t, 1) == 4;
    assert Offset(t, 2) == 12 && StructEnd(t, 2) == 16;
    var ts := t.subtype;
    assert Align(ts[0]) == 4 && Align(ts[1]) == 8 && AlignFirst(ts, 0) == 1;
    assert AlignFirst(ts, 1) == 4;
    assert AlignFirst(ts, 2) == 8;
    assert Align(t) == 8;
  }
}
