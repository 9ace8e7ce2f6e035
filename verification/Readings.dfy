/** What an image holds and what the header tells a reader to make of a value of it: unsigned numbers
    are stored in signed members of the union and cast back. */
module Readings {
  import opened AdiakTypes
  import opened Layout
  import opened Views

  predicate IsUnsigned(tag: Tag) {
    tag.UInt? || tag.ULong? || tag.ULongLong?
  }

  /** The number of values of the member of the union that a number of this type is stored in. */
  function MemberRange(tag: Tag): nat {
    if tag.Int? || tag.UInt? then 0x1_0000_0000 else 0x1_0000_0000_0000_0000
  }

  /** The numbers of the C type. */
  predicate InRange(tag: Tag, n: int) {
    if IsUnsigned(tag) then 0 <= n < MemberRange(tag) else 0 - MemberRange(tag) / 2 <= n < MemberRange(tag) / 2
  }

  /** A number as it is in the signed member of the union. */
  function Signed(tag: Tag, n: int): int {
    var m := n % MemberRange(tag);
    if m >= MemberRange(tag) / 2 then m - MemberRange(tag) else m
  }

  /** The documented cast undoes the conversion, for every number of the type. */
  lemma CastOfSigned(tag: Tag, n: int)
    requires InRange(tag, n)
    ensures if IsUnsigned(tag) then Signed(tag, n) % MemberRange(tag) == n else Signed(tag, n) == n
  {
  }

  // ---------------------------------------------------------------- what an image holds

  /** The content of a scalar in the image: an unsigned number is the number that its bytes make. */
  function StoredScalar(objs: Objs, mem: seq<Byte>, t: DType, a: nat): Option<Tree> {
    if IsUnsigned(t.tag) then Some(TInt(LittleEndian(Bytes(mem, a, t.numBytes)))) else DecodeScalar(objs, mem, t, a)
  }

  /** The content of the packed image of a t at address a. */
  function Stored(objs: Objs, mem: seq<Byte>, t: DType, a: nat): Option<Tree>
    decreases t, NumSubvals(t) + 1
  {
    if IsContainer(t.tag) then Node(StoredFrom(objs, mem, t, 0, a)) else StoredScalar(objs, mem, t, a)
  }

  function StoredFrom(objs: Objs, mem: seq<Byte>, t: DType, i: nat, a: nat): Option<seq<Tree>>
    decreases t, NumSubvals(t) - i
  {
    if !HasComponent(t, i) then Some([])
    else Cons(Stored(objs, mem, Component(t, i), a + Offset(t, i)), StoredFrom(objs, mem, t, i + 1, a))
  }

  // ---------------------------------------------------------------- what a reader makes of a value

  /** The documented reading: an unsigned number is the member of the union, cast. */
  function AsRead(t: DType, tree: Tree): Tree
    decreases t, |if tree.TNode? then tree.kids else []| + 1
  {
    if IsContainer(t.tag) then (if tree.TNode? then TNode(AsReadFrom(t, 0, tree.kids)) else tree)
    else if IsUnsigned(t.tag) && tree.TInt? then TInt(tree.i % MemberRange(t.tag))
    else tree
  }

  /** The kids are those of the components from i on. */
  function AsReadFrom(t: DType, i: nat, kids: seq<Tree>): seq<Tree>
    decreases t, |kids|
  {
    if kids == [] || !HasComponent(t, i) then []
    else [AsRead(Component(t, i), kids[0])] + AsReadFrom(t, i + 1, kids[1..])
  }

  /** What a reader sees who walks a value and casts as documented. */
  function ReadBack(objs: Objs, mem: seq<Byte>, t: DType, v: Value): Option<Tree> {
    var tree := Walk(objs, mem, t, v);
    if tree.Some? then Some(AsRead(t, tree.value)) else None
  }

  /** The same for the elements from i on. */
  function ReadFrom(objs: Objs, mem: seq<Byte>, t: DType, v: Value, i: nat): Option<seq<Tree>> {
    var kids := WalkFrom(objs, mem, t, v, i);
    if kids.Some? then Some(AsReadFrom(t, i, kids.value)) else None
  }

  lemma ReadFromStep(objs: Objs, mem: seq<Byte>, t: DType, v: Value, i: nat)
    requires HasComponent(t, i)
    ensures var e := Subval(mem, t, v, i);
            ReadFrom(objs, mem, t, v, i)
            == if e.None? then None
              else Cons(ReadBack(objs, mem, Component(t, i), e.value), ReadFrom(objs, mem, t, v, i + 1))
  {
    var e := Subval(mem, t, v, i);
    if e.Some? {
      var x, xs := Walk(objs, mem, Component(t, i), e.value), WalkFrom(objs, mem, t, v, i + 1);
      if x.Some? && xs.Some? {
        assert ([x.value] + xs.value)[1..] == xs.value;
      }
    }
  }

  // ---------------------------------------------------------------- when the two are the same

  /** Some unsigned number of one or two bytes in the image has its top bit set. */
  predicate HighNarrow(mem: seq<Byte>, t: DType, a: nat)
    decreases t, NumSubvals(t) + 1
  {
    if IsContainer(t.tag) then HighNarrowFrom(mem, t, 0, a)
    else
      var bs := Bytes(mem, a, t.numBytes);
      t.tag.UInt? && t.numBytes <= 2 && bs != [] && bs[|bs| - 1] >= 128
  }

  predicate HighNarrowFrom(mem: seq<Byte>, t: DType, i: nat, a: nat)
    decreases t, NumSubvals(t) - i
  {
    HasComponent(t, i) && (HighNarrow(mem, Component(t, i), a + Offset(t, i)) || HighNarrowFrom(mem, t, i + 1, a))
  }

  lemma {:induction false} LittleEndianBound(bs: seq<Byte>)
    ensures LittleEndian(bs) < Power256(|bs|)
  {
    if bs != [] {
      LittleEndianBound(bs[1..]);
    }
  }

  lemma Powers(n: nat)
    requires n in {0, 1, 2, 4, 8}
    ensures n == 0 ==> Power256(n) == 1
    ensures n == 1 ==> Power256(n) == 0x100
    ensures n == 2 ==> Power256(n) == 0x1_0000
    ensures n == 4 ==> Power256(n) == 0x1_0000_0000
    ensures n == 8 ==> Power256(n) == 0x1_0000_0000_0000_0000
  {
    assert n >= 2 ==> Power256(n) == 0x1_0000 * Power256(n - 2);
    assert n >= 4 ==> Power256(n - 2) == 0x1_0000 * Power256(n - 4);
    assert n == 8 ==> Power256(n - 4) == 0x1_0000 * Power256(n - 6) && Power256(n - 6) == 0x1_0000 * Power256(n - 8);
  }

  /** A signed member, cast to unsigned, is the number in the image unless it was widened with its sign. */
  lemma CastBack(bs: seq<Byte>, n: nat, tag: Tag)
    requires IsUnsigned(tag) && (if tag.UInt? then n in {1, 2, 4} else n == 8) && (|bs| == n || bs == [])
    ensures TwosComplement(bs) % MemberRange(tag) == LittleEndian(bs)
       <==> !(tag.UInt? && n <= 2 && bs != [] && bs[|bs| - 1] >= 128)
  {
    LittleEndianBound(bs);
    Powers(|bs|);
  }

  lemma LeafReads(objs: Objs, mem: seq<Byte>, t: DType, a: nat)
    requires IsStatic(t)
    ensures Decode(objs, mem, t, a).Some? <==> Stored(objs, mem, t, a).Some?
    ensures Decode(objs, mem, t, a).Some? ==>
              (AsRead(t, Decode(objs, mem, t, a).value) == Stored(objs, mem, t, a).value <==> !HighNarrow(mem, t, a))
  {
    if IsUnsigned(t.tag) {
      CastBack(Bytes(mem, a, t.numBytes), t.numBytes, t.tag);
    }
  }

  /** A reader sees what the image holds if and only if no unsigned number of one or two bytes in it has
      its top bit set: such a number is stored with its sign. */
  lemma {:induction false} ReadsAsStored(objs: Objs, mem: seq<Byte>, t: DType, a: nat)
    requires Shaped(t)
    ensures Decode(objs, mem, t, a).Some? <==> Stored(objs, mem, t, a).Some?
    ensures Decode(objs, mem, t, a).Some? ==>
              (AsRead(t, Decode(objs, mem, t, a).value) == Stored(objs, mem, t, a).value <==> !HighNarrow(mem, t, a))
    decreases t, NumSubvals(t) + 1
  {
    if IsContainer(t.tag) {
      ReadsAsStoredFrom(objs, mem, t, 0, a);
    } else {
      LeafReads(objs, mem, t, a);
    }
  }

  lemma {:induction false} ReadsAsStoredFrom(objs: Objs, mem: seq<Byte>, t: DType, i: nat, a: nat)
    requires Shaped(t) && IsContainer(t.tag) && i <= NumSubvals(t)
    ensures DecodeFrom(objs, mem, t, i, a).Some? <==> StoredFrom(objs, mem, t, i, a).Some?
    ensures DecodeFrom(objs, mem, t, i, a).Some? ==>
              (AsReadFrom(t, i, DecodeFrom(objs, mem, t, i, a).value) == StoredFrom(objs, mem, t, i, a).value
               <==> !HighNarrowFrom(mem, t, i, a))
    decreases t, NumSubvals(t) - i
  {
    if i < NumSubvals(t) {
      ShapedComponent(t, i);
      var c, at := Component(t, i), a + Offset(t, i);
      ReadsAsStored(objs, mem, c, at);
      ReadsAsStoredFrom(objs, mem, t, i + 1, a);
      if DecodeFrom(objs, mem, t, i, a).Some? {
        var d, ds := Decode(objs, mem, c, at).value, DecodeFrom(objs, mem, t, i + 1, a).value;
        var x, xs := Stored(objs, mem, c, at).value, StoredFrom(objs, mem, t, i + 1, a).value;
        assert ([d] + ds)[1..] == ds;
        ConsEqual(AsRead(c, d), AsReadFrom(t, i + 1, ds), x, xs);
      }
    }
  }

  lemma ConsEqual(x: Tree, xs: seq<Tree>, y: Tree, ys: seq<Tree>)
    ensures [x] + xs == [y] + ys <==> x == y && xs == ys
  {
    if [x] + xs == [y] + ys {
      assert ([x] + xs)[0] == ([y] + ys)[0];
      assert ([x] + xs)[1..] == xs && ([y] + ys)[1..] == ys;
    }
  }

  /** An input that is read wrong: the byte 200 in a list of one u8. */
  lemma TwoHundredReadsWrong(objs: Objs, mem: seq<Byte>, t: DType)
    requires mem == [200] && t == DType(List, Categorical, 1, [BASE_U8], false, 0, 0)
    ensures Stored(objs, mem, t, 0) == Some(TNode([TInt(200)]))
    ensures Decode(objs, mem, t, 0) == Some(TNode([TInt(-56)]))
    ensures AsRead(t, TNode([TInt(-56)])) == TNode([TInt(0x1_0000_0000 - 56)])
  {
    var bs := Bytes(mem, 0, 1);
    assert bs == [200] && bs[1..] == [];
    assert LittleEndian(bs) == 200;
    Powers(1);
    assert TwosComplement(bs) == -56;
    assert HasComponent(t, 0) && !HasComponent(t, 1) && Component(t, 0) == BASE_U8 && Offset(t, 0) == 0;
    assert Decode(objs, mem, BASE_U8, 0) == Some(TInt(-56)) && Stored(objs, mem, BASE_U8, 0) == Some(TInt(200));
    assert DecodeFrom(objs, mem, t, 1, 0) == Some([]) && StoredFrom(objs, mem, t, 1, 0) == Some([]);
    assert DecodeFrom(objs, mem, t, 0, 0) == Some([TInt(-56)] + []) && [TInt(-56)] + [] == [TInt(-56)];
    assert StoredFrom(objs, mem, t, 0, 0) == Some([TInt(200)] + []) && [TInt(200)] + [] == [TInt(200)];
    var kids := [TInt(-56)];
    assert kids[1..] == [] && AsReadFrom(t, 1, []) == [];
    assert AsReadFrom(t, 0, kids) == [AsRead(BASE_U8, kids[0])];
  }
}
