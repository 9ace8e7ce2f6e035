/** What a C program writes into memory, said of the values and not of any reader: the image of an integer is its
    digits in base 256, lowest first, and that of a container is the images of its components in a row. */
module Images {
  import opened AdiakTypes
  import opened CHeap
  import opened Layout
  import opened Views
  import opened Readings
  import opened DeepCopy
  import N = NameValue

  // ---------------------------------------------------------------- numbers

  /** The bytes are the digits of n in base 256. */
  predicate IsDigits(bs: seq<Byte>, n: nat) {
    n < Power256(|bs|) && forall k :: 0 <= k < |bs| ==> bs[k] == Digit(n, k)
  }

  function Digit(n: nat, k: nat): nat {
    if k == 0 then n % 256 else Digit(n / 256, k - 1)
  }

  lemma {:induction false} DigitsReadBack(bs: seq<Byte>, n: nat)
    ensures IsDigits(bs, n) <==> LittleEndian(bs) == n
    decreases |bs|
  {
    if bs != [] {
      DigitsReadBack(bs[1..], n / 256);
      FirstDigit(bs, n);
    }
  }

  lemma FirstDigit(bs: seq<Byte>, n: nat)
    requires bs != []
    ensures IsDigits(bs, n) <==> bs[0] == n % 256 && IsDigits(bs[1..], n / 256)
  {
    assert Power256(|bs|) == 256 * Power256(|bs| - 1);
    if bs[0] == n % 256 && IsDigits(bs[1..], n / 256) {
      forall k | 0 <= k < |bs| ensures bs[k] == Digit(n, k) {
        assert k > 0 ==> bs[k] == bs[1..][k - 1];
      }
    }
    if IsDigits(bs, n) {
      forall k | 0 <= k < |bs| - 1 ensures bs[1..][k] == Digit(n / 256, k) {
        assert bs[k + 1] == Digit(n, k + 1);
      }
    }
  }

  predicate IsInteger(tag: Tag) {
    tag in {Int, UInt, Long, ULong, LongLong, ULongLong, Date}
  }

  /** How many numbers w bytes can hold. */
  function Modulus(w: nat): int {
    if w == 1 then 0x100 else if w == 2 then 0x1_0000 else if w == 4 then 0x1_0000_0000
    else 0x1_0000_0000_0000_0000
  }

  /** bs is what an integer variable of the type holds when its value is n. */
  predicate IsIntegerImage(t: DType, n: int, bs: seq<Byte>) {
    var m := Modulus(t.numBytes);
    && |bs| == t.numBytes
    && if IsUnsigned(t.tag) then 0 <= n < m && IsDigits(bs, n)
       else 0 - m / 2 <= n < m / 2 && IsDigits(bs, if n < 0 then n + m else n)
  }

  /** The readers find exactly that value, before any cast to unsigned. */
  lemma IntegerReads(t: DType, n: int, bs: seq<Byte>)
    requires IsStatic(t) && IsInteger(t.tag)
    ensures IsIntegerImage(t, n, bs)
       <==> |bs| == t.numBytes && n == if IsUnsigned(t.tag) then LittleEndian(bs) else TwosComplement(bs)
  {
    if |bs| == t.numBytes {
      LittleEndianBound(bs);
      Powers(|bs|);
      TopBit(bs);
      if IsUnsigned(t.tag) {
        if n >= 0 {
          DigitsReadBack(bs, n);
        }
      } else {
        var u := if n < 0 then n + Modulus(t.numBytes) else n;
        if u >= 0 {
          DigitsReadBack(bs, u);
        }
      }
    }
  }

  /** The top bit is set exactly for the upper half. */
  lemma {:induction false} TopBit(bs: seq<Byte>)
    requires bs != []
    ensures bs[|bs| - 1] < 128 <==> LittleEndian(bs) < Power256(|bs| - 1) * 128
    decreases |bs|
  {
    if |bs| == 1 {
      assert bs[1..] == [] && LittleEndian(bs) == bs[0];
    } else {
      TopBit(bs[1..]);
      assert Power256(|bs| - 1) == 256 * Power256(|bs| - 2);
    }
  }

  // ---------------------------------------------------------------- images

  /** The bytes are a pointer to what tree says. */
  ghost predicate IsPointerImage(objs: Objs, tag: Tag, tree: Tree, bs: seq<Byte>) {
    |bs| == SIZEOF_POINTER && exists p: nat :: IsDigits(bs, p) && LeadsTo(objs, tag, tree, p)
  }

  predicate LeadsTo(objs: Objs, tag: Tag, tree: Tree, p: nat) {
    p in objs && if tag.Timeval? then tree.TTime? && objs[p] == Time(tree.sec, tree.usec)
                 else tree.TText? && objs[p] == Text(tree.s)
  }

  /** bs is what a program has in memory for the value tree of type t. */
  ghost predicate IsImage(objs: Objs, t: DType, tree: Tree, bs: seq<Byte>)
    decreases t, NumSubvals(t) + 1
  {
    if IsContainer(t.tag) then tree.TNode? && IsImageFrom(objs, t, 0, tree.kids, bs)
    else if IsInteger(t.tag) then tree.TInt? && IsIntegerImage(t, tree.i, bs)
    else if t.tag.Double? then
      |bs| == t.numBytes && tree == TReal(if t.numBytes == 4 then Widened(bs) else Plain(bs))
    else IsPointerImage(objs, t.tag, tree, bs)
  }

  /** The images of the components from i on, one after the other. */
  ghost predicate IsImageFrom(objs: Objs, t: DType, i: nat, kids: seq<Tree>, bs: seq<Byte>)
    decreases t, NumSubvals(t) - i
  {
    if !HasComponent(t, i) then kids == [] && bs == []
    else kids != [] && exists n :: 0 <= n <= |bs| && IsSplit(objs, t, i, kids, bs, n)
  }

  ghost predicate IsSplit(objs: Objs, t: DType, i: nat, kids: seq<Tree>, bs: seq<Byte>, n: nat)
    requires HasComponent(t, i) && kids != [] && n <= |bs|
    decreases t, NumSubvals(t) - i, 0
  {
    IsImage(objs, Component(t, i), kids[0], bs[..n]) && IsImageFrom(objs, t, i + 1, kids[1..], bs[n..])
  }

  // ---------------------------------------------------------------- what an image holds is what was written

  lemma LeafHolds(objs: Objs, mem: seq<Byte>, t: DType, a: nat, tree: Tree)
    requires IsStatic(t) && a + t.numBytes <= |mem|
    ensures IsImage(objs, t, tree, mem[a..a + t.numBytes]) <==> Stored(objs, mem, t, a) == Some(tree)
  {
    var bs := mem[a..a + t.numBytes];
    if IsInteger(t.tag) {
      if tree.TInt? {
        IntegerReads(t, tree.i, bs);
      }
    } else if !t.tag.Double? {
      PointerReads(objs, t.tag, tree, bs);
    }
  }

  lemma PointerReads(objs: Objs, tag: Tag, tree: Tree, bs: seq<Byte>)
    requires |bs| == SIZEOF_POINTER && (tag.Timeval? || IsText(tag))
    ensures IsPointerImage(objs, tag, tree, bs) <==> PointedTo(objs, tag, LittleEndian(bs)) == Some(tree)
  {
    DigitsReadBack(bs, LittleEndian(bs));
    forall p: nat | IsDigits(bs, p) ensures p == LittleEndian(bs) {
      DigitsReadBack(bs, p);
    }
  }

  /** An image has the packed size. */
  lemma {:induction false} ImageSize(objs: Objs, t: DType, tree: Tree, bs: seq<Byte>)
    requires Shaped(t) && IsImage(objs, t, tree, bs)
    ensures |bs| == Size(t)
    decreases t, NumSubvals(t) + 1
  {
    if IsContainer(t.tag) {
      ImageSizeFrom(objs, t, 0, tree.kids, bs);
    }
  }

  lemma {:induction false} ImageSizeFrom(objs: Objs, t: DType, i: nat, kids: seq<Tree>, bs: seq<Byte>)
    requires Shaped(t) && IsContainer(t.tag) && i <= NumSubvals(t) && IsImageFrom(objs, t, i, kids, bs)
    ensures |bs| == Size(t) - Offset(t, i)
    decreases t, NumSubvals(t) - i
  {
    if i < NumSubvals(t) {
      ShapedComponent(t, i);
      var n :| 0 <= n <= |bs| && IsSplit(objs, t, i, kids, bs, n);
      ImageSize(objs, Component(t, i), kids[0], bs[..n]);
      ImageSizeFrom(objs, t, i + 1, kids[1..], bs[n..]);
    }
  }

  ghost predicate Agrees(objs: Objs, mem: seq<Byte>, t: DType, a: nat, tree: Tree)
    requires a + Size(t) <= |mem|
  {
    IsImage(objs, t, tree, mem[a..a + Size(t)]) <==> Stored(objs, mem, t, a) == Some(tree)
  }

  ghost predicate AgreesFrom(objs: Objs, mem: seq<Byte>, t: DType, i: nat, a: nat, kids: seq<Tree>)
    requires Offset(t, i) <= Size(t) && a + Size(t) <= |mem|
  {
    IsImageFrom(objs, t, i, kids, mem[a + Offset(t, i)..a + Size(t)]) <==> StoredFrom(objs, mem, t, i, a) == Some(kids)
  }

  /** What the readers take for the content of an image is what was written there, and nothing else. */
  lemma {:induction false} HoldsWhatWasWritten(objs: Objs, mem: seq<Byte>, t: DType, a: nat, tree: Tree)
    requires Shaped(t) && a + Size(t) <= |mem|
    ensures Agrees(objs, mem, t, a, tree)
    decreases t, NumSubvals(t) + 1
  {
    if !IsContainer(t.tag) {
      LeafHolds(objs, mem, t, a, tree);
    } else if tree.TNode? {
      HoldsFrom(objs, mem, t, 0, a, tree.kids);
      WholeAgrees(objs, mem, t, a, tree);
    }
  }

  lemma WholeAgrees(objs: Objs, mem: seq<Byte>, t: DType, a: nat, tree: Tree)
    requires IsContainer(t.tag) && a + Size(t) <= |mem| && tree.TNode? && AgreesFrom(objs, mem, t, 0, a, tree.kids)
    ensures Agrees(objs, mem, t, a, tree)
  {
    assert Offset(t, 0) == 0;
  }

  lemma {:induction false} HoldsFrom(objs: Objs, mem: seq<Byte>, t: DType, i: nat, a: nat, kids: seq<Tree>)
    requires Shaped(t) && IsContainer(t.tag) && i <= NumSubvals(t) && a + Size(t) <= |mem|
    requires Offset(t, i) <= Size(t)
    ensures AgreesFrom(objs, mem, t, i, a, kids)
    decreases t, NumSubvals(t) - i
  {
    if i < NumSubvals(t) {
      ComponentWithin(t, i);
      if kids != [] {
        HoldsWhatWasWritten(objs, mem, Component(t, i), a + Offset(t, i), kids[0]);
        HoldsFrom(objs, mem, t, i + 1, a, kids[1..]);
        AgreesStep(objs, mem, t, i, a, kids);
      } else {
        StoredStep(objs, mem, t, i, a);
      }
    }
  }

  lemma ComponentWithin(t: DType, i: nat)
    requires Shaped(t) && IsContainer(t.tag) && i < NumSubvals(t)
    ensures HasComponent(t, i) && Shaped(Component(t, i))
    ensures Offset(t, i + 1) == Offset(t, i) + Size(Component(t, i)) <= Size(t)
  {
    ShapedComponent(t, i);
    OffsetWithin(t, i, NumSubvals(t));
  }

  lemma AgreesStep(objs: Objs, mem: seq<Byte>, t: DType, i: nat, a: nat, kids: seq<Tree>)
    requires Shaped(t) && IsContainer(t.tag) && i < NumSubvals(t) && HasComponent(t, i) && kids != []
    requires Offset(t, i + 1) == Offset(t, i) + Size(Component(t, i)) <= Size(t) && a + Size(t) <= |mem|
    requires Agrees(objs, mem, Component(t, i), a + Offset(t, i), kids[0])
    requires AgreesFrom(objs, mem, t, i + 1, a, kids[1..])
    ensures AgreesFrom(objs, mem, t, i, a, kids)
  {
    SplitAtSize(objs, t, i, kids, mem, a + Offset(t, i), a + Size(t));
    StoredKids(objs, mem, t, i, a, kids);
  }

  lemma StoredKids(objs: Objs, mem: seq<Byte>, t: DType, i: nat, a: nat, kids: seq<Tree>)
    requires HasComponent(t, i) && kids != []
    ensures StoredFrom(objs, mem, t, i, a) == Some(kids)
       <==> Stored(objs, mem, Component(t, i), a + Offset(t, i)) == Some(kids[0])
            && StoredFrom(objs, mem, t, i + 1, a) == Some(kids[1..])
  {
    StoredStep(objs, mem, t, i, a);
    ConsOf(Stored(objs, mem, Component(t, i), a + Offset(t, i)), StoredFrom(objs, mem, t, i + 1, a), kids);
  }

  lemma StoredStep(objs: Objs, mem: seq<Byte>, t: DType, i: nat, a: nat)
    requires HasComponent(t, i)
    ensures StoredFrom(objs, mem, t, i, a)
         == Cons(Stored(objs, mem, Component(t, i), a + Offset(t, i)), StoredFrom(objs, mem, t, i + 1, a))
    ensures StoredFrom(objs, mem, t, i, a) != Some([])
  {
  }

  lemma SomeSplit(objs: Objs, t: DType, i: nat, kids: seq<Tree>, bs: seq<Byte>) returns (n: nat)
    requires HasComponent(t, i) && kids != [] && IsImageFrom(objs, t, i, kids, bs)
    ensures n <= |bs| && IsSplit(objs, t, i, kids, bs, n)
  {
    n :| 0 <= n <= |bs| && IsSplit(objs, t, i, kids, bs, n);
  }

  /** The first component's image ends where its size says. */
  lemma SplitAtSize(objs: Objs, t: DType, i: nat, kids: seq<Tree>, mem: seq<Byte>, at: nat, end: nat)
    requires Shaped(t) && IsContainer(t.tag) && i < NumSubvals(t) && HasComponent(t, i) && kids != []
    requires at + Size(Component(t, i)) <= end <= |mem|
    ensures var n := Size(Component(t, i));
            IsImageFrom(objs, t, i, kids, mem[at..end])
            <==> IsImage(objs, Component(t, i), kids[0], mem[at..at + n])
                 && IsImageFrom(objs, t, i + 1, kids[1..], mem[at + n..end])
  {
    var bs, n := mem[at..end], Size(Component(t, i));
    ShapedComponent(t, i);
    assert bs[..n] == mem[at..at + n] && bs[n..] == mem[at + n..end];
    if IsImageFrom(objs, t, i, kids, bs) {
      var m := SomeSplit(objs, t, i, kids, bs);
      ImageSize(objs, Component(t, i), kids[0], bs[..m]);
    }
    if IsImage(objs, Component(t, i), kids[0], bs[..n]) && IsImageFrom(objs, t, i + 1, kids[1..], bs[n..]) {
      assert IsSplit(objs, t, i, kids, bs, n);
    }
  }

  lemma ConsOf(x: Option<Tree>, xs: Option<seq<Tree>>, kids: seq<Tree>)
    requires kids != []
    ensures Cons(x, xs) == Some(kids) <==> x == Some(kids[0]) && xs == Some(kids[1..])
  {
    assert kids == [kids[0]] + kids[1..];
    if x.Some? && xs.Some? {
      assert ([x.value] + xs.value)[1..] == xs.value;
    }
  }

  // ---------------------------------------------------------------- what a reader makes of it

  /** An unsigned number of one or two bytes in the tree is in the upper half of its range. */
  predicate HasHigh(t: DType, tree: Tree)
    decreases t, |if tree.TNode? then tree.kids else []| + 1
  {
    if IsContainer(t.tag) then tree.TNode? && HasHighFrom(t, 0, tree.kids)
    else t.tag.UInt? && tree.TInt? && ((t.numBytes == 1 && tree.i >= 128) || (t.numBytes == 2 && tree.i >= 32768))
  }

  predicate HasHighFrom(t: DType, i: nat, kids: seq<Tree>)
    decreases t, |kids|
  {
    kids != [] && HasComponent(t, i) && (HasHigh(Component(t, i), kids[0]) || HasHighFrom(t, i + 1, kids[1..]))
  }

  lemma {:induction false} HighIsHigh(objs: Objs, mem: seq<Byte>, t: DType, a: nat, tree: Tree)
    requires Shaped(t) && a + Size(t) <= |mem| && Stored(objs, mem, t, a) == Some(tree)
    ensures HighNarrow(mem, t, a) <==> HasHigh(t, tree)
    decreases t, NumSubvals(t) + 1
  {
    if IsContainer(t.tag) {
      HighIsHighFrom(objs, mem, t, 0, a, tree.kids);
    } else if t.tag.UInt? {
      var bs := mem[a..a + t.numBytes];
      LittleEndianBound(bs);
      Powers(|bs|);
      TopBit(bs);
      assert Power256(1) == 256 && Power256(0) == 1;
    }
  }

  lemma {:induction false} HighIsHighFrom(objs: Objs, mem: seq<Byte>, t: DType, i: nat, a: nat, kids: seq<Tree>)
    requires Shaped(t) && IsContainer(t.tag) && i <= NumSubvals(t) && a + Size(t) <= |mem|
    requires StoredFrom(objs, mem, t, i, a) == Some(kids)
    ensures HighNarrowFrom(mem, t, i, a) <==> HasHighFrom(t, i, kids)
    decreases t, NumSubvals(t) - i
  {
    if i < NumSubvals(t) {
      ComponentWithin(t, i);
      StoredStep(objs, mem, t, i, a);
      ConsOf(Stored(objs, mem, Component(t, i), a + Offset(t, i)), StoredFrom(objs, mem, t, i + 1, a), kids);
      HighIsHigh(objs, mem, Component(t, i), a + Offset(t, i), kids[0]);
      HighIsHighFrom(objs, mem, t, i + 1, a, kids[1..]);
    }
  }

  /** The tree is in the caller's memory at address a. */
  ghost predicate InMemory(objs: Objs, mem: seq<Byte>, t: DType, a: nat, tree: Tree) {
    a + Size(t) <= |mem| && IsImage(objs, t, tree, mem[a..a + Size(t)])
  }

  lemma DecodedRight(objs: Objs, mem: seq<Byte>, t: DType, a: nat, tree: Tree)
    requires Shaped(t) && InMemory(objs, mem, t, a, tree)
    ensures Decode(objs, mem, t, a).Some?
    ensures AsRead(t, Decode(objs, mem, t, a).value) == tree <==> !HasHigh(t, tree)
  {
    HoldsWhatWasWritten(objs, mem, t, a, tree);
    HighIsHigh(objs, mem, t, a, tree);
    ReadsAsStored(objs, mem, t, a);
  }

  /** Zero copy: a reader of a reference, who casts as documented, sees what the program wrote if and only if
      there is no high number of one or two bytes in it. */
  lemma ReferenceShowsWhatWasWritten(objs: Objs, mem: seq<Byte>, t: DType, a: nat, tree: Tree)
    requires WellFormed(t) && IsContainer(t.tag) && t.isReference && InMemory(objs, mem, t, a, tree)
    ensures ReadBack(objs, mem, t, VRef(a)) == Some(tree) <==> !HasHigh(t, tree)
  {
    DecodedRight(objs, mem, t, a, tree);
    SameAsItself(t);
    ReferenceWalk(objs, mem, t, t, a);
  }

  lemma {:induction false} SameAsItself(t: DType)
    ensures SameImage(t, t)
  {
    forall i | 0 <= i < |t.subtype| ensures SameImage(t.subtype[i], t.subtype[i]) {
      SameAsItself(t.subtype[i]);
    }
  }

  /** Deep copy: so does a reader of a copy. */
  lemma CopyShowsWhatWasWritten(objs: Objs, mem: seq<Byte>, t: DType, a: nat, tree: Tree, h0: Heap, v: Value, h: Heap)
    requires Shaped(t) && InMemory(objs, mem, t, a, tree) && CopyOf(t, mem, a, objs, h0, v, h)
    ensures ReadBack(Since(objs, h0, h), mem, t, v) == Some(tree) <==> !HasHigh(t, tree)
  {
    DecodedRight(objs, mem, t, a, tree);
  }

  /** The accessor on one number: a signed one is handed out as it was written, an unsigned one by the cast. */
  lemma NumberHandedOut(mem: seq<Byte>, t: DType, a: nat, n: int)
    requires IsStatic(t) && IsInteger(t.tag) && a + t.numBytes <= |mem|
    requires IsIntegerImage(t, n, mem[a..a + t.numBytes])
    ensures var v := ReadAt(mem, t, a);
            var found := if v.VInt? then v.i else if v.VLong? then v.long else if v.VLongLong? then v.longlong else 0;
            && (v.VInt? <==> t.tag in {Int, UInt}) && (v.VLongLong? <==> t.tag in {LongLong, ULongLong})
            && (v.VLong? <==> t.tag in {Long, ULong, Date})
            && (!IsUnsigned(t.tag) ==> found == n)
            && (IsUnsigned(t.tag) ==> (found % (if v.VInt? then 0x1_0000_0000 else 0x1_0000_0000_0000_0000) == n
                                       <==> !HasHigh(t, TInt(n))))
  {
    var bs := mem[a..a + t.numBytes];
    IntegerReads(t, n, bs);
    LittleEndianBound(bs);
    Powers(|bs|);
    TopBit(bs);
    if IsUnsigned(t.tag) {
      CastBack(bs, t.numBytes, t.tag);
      assert Power256(1) == 256 && Power256(0) == 1;
    }
  }

  /** So what adiak_namevalue is meant to keep of a container is what the program has written at its address. */
  lemma MeansWhatWasWritten(objs: Objs, mem: seq<Byte>, t: DType, a: nat, tree: Tree)
    requires Shaped(t) && a + Size(t) <= |mem|
    ensures N.Meaning(objs, mem, t, N.Address(a)) == Some(tree) <==> InMemory(objs, mem, t, a, tree)
    ensures InMemory(objs, mem, t, a, tree) ==> (N.Widens(mem, t, N.Address(a)) <==> HasHigh(t, tree))
  {
    HoldsWhatWasWritten(objs, mem, t, a, tree);
    if InMemory(objs, mem, t, a, tree) {
      HighIsHigh(objs, mem, t, a, tree);
    }
  }
}
