/** The C heap as the library uses it, and the blocks that type descriptors take up on it. Blocks
    are named in the order of their allocation and no name is ever used twice, so a second free of
    a block, or a free of something that was never allocated, violates the precondition of Free. */
module CHeap {
  import opened AdiakTypes

  /** What a block holds, as far as the model looks inside: a C string, a struct timeval, or
      something whose content is modelled elsewhere. */
  datatype Obj = Text(s: string) | Time(sec: int, usec: int) | Raw

  /** The live blocks, and the name of the next one. The name 0 is NULL. */
  datatype Heap = Heap(objs: map<nat, Obj>, next: nat) {
    ghost predicate Valid() {
      0 < next && forall p :: p in objs ==> 0 < p < next
    }

    /** malloc; the new block is named by the old value of next. */
    function Malloc(o: Obj): (h: Heap)
      requires Valid()
      ensures h.Valid() && ExtendedBy(h) && Grows({next}, h)
    {
      Heap(objs[next := o], next + 1)
    }

    /** free */
    function Free(p: nat): (h: Heap)
      requires Valid() && p in objs
      ensures h.Valid() && LessBlocks({p}, h)
    {
      Heap(objs - {p}, next)
    }

    /** Every block that is live here is live and unchanged in h. */
    ghost predicate ExtendedBy(h: Heap) {
      next <= h.next && forall p :: p in objs ==> p in h.objs && h.objs[p] == objs[p]
    }

    /** Whatever is live in h was live here with the same content, or is new: no name is used again. */
    ghost predicate Keeps(h: Heap) {
      next <= h.next && forall p :: p in h.objs ==> p >= next || (p in objs && h.objs[p] == objs[p])
    }

    /** h has exactly the blocks ps more than this heap; none of them was ever in use before. */
    ghost predicate Grows(ps: set<nat>, h: Heap) {
      && Valid() && h.Valid() && ExtendedBy(h)
      && (forall p :: p in ps ==> next <= p)
      && (forall p :: p in h.objs <==> p in objs || p in ps)
    }

    /** h has every block from this heap's next on, up to its own next, and nothing else new. */
    ghost predicate GrowsTo(h: Heap) {
      && Valid() && h.Valid() && ExtendedBy(h)
      && (forall p :: p in h.objs <==> p in objs || next <= p < h.next)
    }

    /** h is what is left after freeing exactly the blocks in ps. */
    ghost predicate LessBlocks(ps: set<nat>, h: Heap) {
      && next == h.next
      && (forall p :: p in h.objs <==> p in objs && p !in ps)
      && (forall p :: p in h.objs ==> h.objs[p] == objs[p])
    }
  }

  /** The blocks named from lo up to hi. */
  ghost function BlocksFrom(lo: nat, hi: nat): set<nat> {
    set p | lo <= p < hi && IsFrom(lo, p, hi)
  }

  predicate IsFrom(lo: nat, p: nat, hi: nat) {
    lo <= p < hi
  }

  /** The number of blocks of a descriptor. Static descriptors have none, the unset node is one
      block, and a container has a node and a subtype array before the blocks of its subtypes. */
  function Span(t: DType): nat {
    if IsContainer(t.tag) then 2 + SpanOfFirst(t.subtype, |t.subtype|)
    else if t.tag.Unset? then 1
    else 0
  }

  function SpanOfFirst(ts: seq<DType>, n: nat): nat
    requires n <= |ts|
    decreases ts, n
  {
    if n == 0 then 0 else SpanOfFirst(ts, n - 1) + Span(ts[n - 1])
  }

  /** Whether p is a block that free_adiak_type leaves behind when it frees the descriptor whose
      blocks start at base: it frees the subtype array only if there are subtypes, so the
      zero-length array of an empty tuple is never freed, and it never frees the unset node. */
  predicate IsLost(t: DType, base: nat, p: nat)
    decreases t, |t.subtype|
  {
    if IsContainer(t.tag) then
      if t.subtype == [] then p == base + 1
      else IsLostInFirst(t.subtype, |t.subtype|, base + 2, p)
    else
      t.tag.Unset? && p == base
  }

  predicate IsLostInFirst(ts: seq<DType>, n: nat, base: nat, p: nat)
    requires n <= |ts|
    decreases ts, n
  {
    n > 0 && (IsLostInFirst(ts, n - 1, base, p) || IsLost(ts[n - 1], base + SpanOfFirst(ts, n - 1), p))
  }

  /** How many empty tuples there are in a descriptor. */
  function EmptyTuples(t: DType): nat {
    if !IsContainer(t.tag) then 0
    else if t.subtype == [] then 1
    else EmptyTuplesInFirst(t.subtype, |t.subtype|)
  }

  function EmptyTuplesInFirst(ts: seq<DType>, n: nat): nat
    requires n <= |ts|
    decreases ts, n
  {
    if n == 0 then 0 else EmptyTuplesInFirst(ts, n - 1) + EmptyTuples(ts[n - 1])
  }

  /** The lost blocks of a descriptor lie within it. */
  lemma {:induction false} LostIsWithin(t: DType, base: nat, p: nat)
    ensures IsLost(t, base, p) ==> base <= p < base + Span(t)
    ensures IsLost(t, base, p) && IsContainer(t.tag) && t.subtype != [] ==> base + 2 <= p
    decreases t, 1, 0
  {
    if IsContainer(t.tag) && t.subtype != [] {
      LostIsWithinFirst(t.subtype, |t.subtype|, base + 2, p);
    }
  }

  lemma {:induction false} LostIsWithinFirst(ts: seq<DType>, n: nat, base: nat, p: nat)
    requires n <= |ts|
    ensures IsLostInFirst(ts, n, base, p) ==> base <= p < base + SpanOfFirst(ts, n)
    decreases ts, 0, n
  {
    if n > 0 {
      LostIsWithinFirst(ts, n - 1, base, p);
      LostIsWithin(ts[n - 1], base + SpanOfFirst(ts, n - 1), p);
    }
  }

  ghost function LostBlocks(t: DType, base: nat): set<nat> {
    set p | base <= p < base + Span(t) && IsLost(t, base, p)
  }

  ghost function LostInFirst(ts: seq<DType>, n: nat, base: nat): set<nat>
    requires n <= |ts|
  {
    set p | base <= p < base + SpanOfFirst(ts, n) && IsLostInFirst(ts, n, base, p)
  }

  /** One block is lost for each empty tuple. */
  lemma {:induction false} LostIsEmptyTuples(t: DType, base: nat)
    requires Shaped(t)
    ensures |LostBlocks(t, base)| == EmptyTuples(t)
    decreases t, 1, 0
  {
    if !IsContainer(t.tag) {
      assert LostBlocks(t, base) == {};
    } else if t.subtype == [] {
      assert forall p :: p in LostBlocks(t, base) <==> p == base + 1;
      assert LostBlocks(t, base) == {base + 1};
    } else {
      LostInFirstIsEmptyTuples(t.subtype, |t.subtype|, base + 2);
      forall p ensures p in LostBlocks(t, base) <==> p in LostInFirst(t.subtype, |t.subtype|, base + 2) {
        LostIsWithin(t, base, p);
      }
      assert LostBlocks(t, base) == LostInFirst(t.subtype, |t.subtype|, base + 2);
    }
  }

  lemma {:induction false} LostInFirstIsEmptyTuples(ts: seq<DType>, n: nat, base: nat)
    requires n <= |ts| && forall i :: 0 <= i < |ts| ==> Shaped(ts[i])
    ensures |LostInFirst(ts, n, base)| == EmptyTuplesInFirst(ts, n)
    decreases ts, 0, n
  {
    if n == 0 {
      assert LostInFirst(ts, n, base) == {};
    } else {
      LostInFirstIsEmptyTuples(ts, n - 1, base);
      LostIsEmptyTuples(ts[n - 1], base + SpanOfFirst(ts, n - 1));
      LostInOneMore(ts, n - 1, base);
    }
  }

  lemma LostInOneMore(ts: seq<DType>, n: nat, base: nat)
    requires n < |ts|
    ensures |LostInFirst(ts, n + 1, base)| ==
        |LostInFirst(ts, n, base)| + |LostBlocks(ts[n], base + SpanOfFirst(ts, n))|
  {
    LostStep(ts, n, base);
  }

  lemma LostStep(ts: seq<DType>, n: nat, base: nat)
    requires n < |ts|
    ensures var a, b := LostInFirst(ts, n, base), LostBlocks(ts[n], base + SpanOfFirst(ts, n));
            a !! b && LostInFirst(ts, n + 1, base) == a + b && |LostInFirst(ts, n + 1, base)| == |a| + |b|
  {
    var a, b := LostInFirst(ts, n, base), LostBlocks(ts[n], base + SpanOfFirst(ts, n));
    forall p ensures p in LostInFirst(ts, n + 1, base) <==> p in a + b {
      LostIsWithinFirst(ts, n, base, p);
      LostIsWithin(ts[n], base + SpanOfFirst(ts, n), p);
      assert IsLostInFirst(ts, n + 1, base, p) <==>
        IsLostInFirst(ts, n, base, p) || IsLost(ts[n], base + SpanOfFirst(ts, n), p);
    }
    assert LostInFirst(ts, n + 1, base) == a + b;
    assert a !! b;
  }

  /** The blocks of the descriptor at base that free_adiak_type frees. */
  ghost function FreedBlocks(t: DType, base: nat): set<nat> {
    set p | base <= p < base + Span(t) && !IsLost(t, base, p)
  }

  ghost function FreedInFirst(ts: seq<DType>, n: nat, base: nat): set<nat>
    requires n <= |ts|
  {
    set p | base <= p < base + SpanOfFirst(ts, n) && !IsLostInFirst(ts, n, base, p)
  }

  lemma FreedSplits(ts: seq<DType>, n: nat, base: nat)
    requires n < |ts|
    ensures FreedInFirst(ts, n + 1, base) == FreedInFirst(ts, n, base) + FreedBlocks(ts[n], base + SpanOfFirst(ts, n))
  {
    var mid := base + SpanOfFirst(ts, n);
    forall p
      ensures p in FreedInFirst(ts, n + 1, base) <==> p in FreedInFirst(ts, n, base) || p in FreedBlocks(ts[n], mid)
    {
      LostIsWithinFirst(ts, n, base, p);
      LostIsWithin(ts[n], mid, p);
      assert IsLostInFirst(ts, n + 1, base, p) <==> IsLostInFirst(ts, n, base, p) || IsLost(ts[n], mid, p);
    }
  }

  lemma FreedAll(t: DType, base: nat)
    requires IsContainer(t.tag)
    ensures FreedBlocks(t, base)
            == FreedInFirst(t.subtype, |t.subtype|, base + 2) + if t.subtype == [] then {base} else {base, base + 1}
  {
    forall p ensures p in FreedBlocks(t, base) <==>
        p in FreedInFirst(t.subtype, |t.subtype|, base + 2) || p == base || (p == base + 1 && t.subtype != []) {
      LostIsWithin(t, base, p);
    }
  }

  /** All the blocks from lo up to hi are live. */
  ghost predicate AllLive(h: Heap, lo: nat, hi: nat) {
    forall p :: lo <= p < hi ==> p in h.objs
  }

  /** Freeing in two steps frees the union. */
  lemma LessTwice(h0: Heap, ps: set<nat>, h1: Heap, qs: set<nat>, h2: Heap)
    requires h0.LessBlocks(ps, h1) && h1.LessBlocks(qs, h2)
    ensures h0.LessBlocks(ps + qs, h2)
  {
  }

  /** free_adiak_type: frees every block of t except the lost ones. */
  method FreeType(t: DType, base: nat, h0: Heap) returns (h: Heap)
    requires h0.Valid() && AllLive(h0, base, base + Span(t))
    ensures h.Valid() && h0.LessBlocks(FreedBlocks(t, base), h)
    decreases t, 1
  {
    if !IsContainer(t.tag) {
      assert FreedBlocks(t, base) == {};
      return h0;
    }
    h := FreeSubtypes(t.subtype, base + 2, h0);
    ghost var h1 := h;
    if |t.subtype| != 0 {
      h := h.Free(base + 1);
    }
    h := h.Free(base);
    FreedAll(t, base);
    var own := if t.subtype == [] then {base} else {base, base + 1};
    LessTwice(h0, FreedInFirst(t.subtype, |t.subtype|, base + 2), h1, own, h);
  }

  /** The loop of free_adiak_type over the subtypes. */
  method FreeSubtypes(ts: seq<DType>, base: nat, h0: Heap) returns (h: Heap)
    requires h0.Valid() && AllLive(h0, base, base + SpanOfFirst(ts, |ts|))
    ensures h.Valid() && h0.LessBlocks(FreedInFirst(ts, |ts|, base), h)
    decreases ts, 0
  {
    h := h0;
    var i := 0;
    while i < |ts|
      invariant 0 <= i <= |ts| && h.Valid()
      invariant h0.LessBlocks(FreedInFirst(ts, i, base), h)
    {
      SpanGrows(ts, i + 1, |ts|);
      ghost var h1 := h;
      h := FreeType(ts[i], base + SpanOfFirst(ts, i), h);
      FreedSplits(ts, i, base);
      LessTwice(h0, FreedInFirst(ts, i, base), h1, FreedBlocks(ts[i], base + SpanOfFirst(ts, i)), h);
      i := i + 1;
    }
  }

  lemma {:induction false} SpanGrows(ts: seq<DType>, m: nat, n: nat)
    requires m <= n <= |ts|
    ensures SpanOfFirst(ts, m) <= SpanOfFirst(ts, n)
    decreases n
  {
    if m < n {
      SpanGrows(ts, m, n - 1);
    }
  }
}
