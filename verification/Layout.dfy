/** The packed byte image of a value: the size of a type, the offsets of its components, and the
    reading of scalars. There is no padding between components. */
module Layout {
  import opened AdiakTypes

  type Byte = b: int | 0 <= b < 256

  /** The n bytes at an address of the caller's memory; none if they are not all there. */
  function Bytes(mem: seq<Byte>, a: nat, n: nat): (bs: seq<Byte>) {
    if a + n <= |mem| then mem[a..a + n] else []
  }

  function LittleEndian(bs: seq<Byte>): nat {
    if bs == [] then 0 else bs[0] + 256 * LittleEndian(bs[1..])
  }

  /** A two's complement integer: the top bit of the last byte is the sign. */
  function TwosComplement(bs: seq<Byte>): int {
    if bs == [] || bs[|bs| - 1] < 128 then LittleEndian(bs) else LittleEndian(bs) - Power256(|bs|)
  }

  function Power256(n: nat): nat {
    if n == 0 then 1 else 256 * Power256(n - 1)
  }

  /** The size of a type in the image. */
  function Size(t: DType): nat
    decreases t, NumSubvals(t) + 1
  {
    if IsContainer(t.tag) then Offset(t, NumSubvals(t)) else t.numBytes
  }

  /** Where component i of a container starts: after the components before it. */
  function Offset(t: DType, i: nat): nat
    decreases t, i
  {
    if i == 0 || !HasComponent(t, i - 1) then 0 else Offset(t, i - 1) + Size(Component(t, i - 1))
  }

  /** In a container with one subtype the offsets are multiples of its size. */
  lemma {:induction false} OffsetIsMultiple(t: DType, i: nat)
    requires IsContainer(t.tag) && !t.tag.Tuple? && t.subtype != [] && i <= NumSubvals(t)
    ensures Offset(t, i) == i * Size(t.subtype[0])
  {
    if i > 0 {
      OffsetIsMultiple(t, i - 1);
    }
  }

  /** A component ends inside the image. */
  lemma {:induction false} OffsetWithin(t: DType, i: nat, n: nat)
    requires Shaped(t) && IsContainer(t.tag) && i < n <= NumSubvals(t)
    ensures HasComponent(t, i) && Offset(t, i) + Size(Component(t, i)) <= Offset(t, n)
    decreases n
  {
    ShapedComponent(t, i);
    if i + 1 < n {
      OffsetWithin(t, i, n - 1);
      ShapedComponent(t, n - 1);
    }
  }

  /** calc_size, with -1 for the unset node. */
  method CalcSize(t: DType) returns (n: int)
    requires Shaped(t) || t.tag.Unset?
    ensures n == if t.tag.Unset? then -1 else Size(t)
    decreases t
  {
    match t.tag {
      case Unset => n := -1;
      case Long | ULong | Date => n := SIZEOF_LONG;
      case LongLong | ULongLong | Int | UInt | Double => n := t.numBytes;
      case Timeval => n := SIZEOF_POINTER;
      case Version | String | CatString | JsonString | Path => n := SIZEOF_POINTER;
      case Range | Set | List =>
        var numElements := t.numElements + t.numRefElements;
        n := CalcSize(t.subtype[0]);
        n := numElements * n;
        OffsetIsMultiple(t, numElements);
      case Tuple =>
        n := 0;
        for i := 0 to |t.subtype|
          invariant n == Offset(t, i)
        {
          var s := CalcSize(t.subtype[i]);
          n := n + s;
        }
    }
  }

  // ---------------------------------------------------------------- tiling

  /** The scalars of a type in walking order, each with its address and its size. */
  function Leaves(t: DType, a: nat): seq<(nat, nat)>
    decreases t, NumSubvals(t) + 1
  {
    if IsContainer(t.tag) then LeavesFrom(t, 0, a) else [(a, t.numBytes)]
  }

  /** Those of the components from i on, for a container at address a. */
  function LeavesFrom(t: DType, i: nat, a: nat): seq<(nat, nat)>
    decreases t, NumSubvals(t) - i
  {
    if !HasComponent(t, i) then []
    else Leaves(Component(t, i), a + Offset(t, i)) + LeavesFrom(t, i + 1, a)
  }

  /** The pieces follow one another from lo to hi without gap or overlap. */
  predicate Tiles(pieces: seq<(nat, nat)>, lo: nat, hi: nat) {
    if pieces == [] then lo == hi
    else pieces[0].0 == lo && pieces[0].1 > 0 && Tiles(pieces[1..], lo + pieces[0].1, hi)
  }

  lemma {:induction false} TilesConcat(xs: seq<(nat, nat)>, ys: seq<(nat, nat)>, lo: nat, mid: nat, hi: nat)
    requires Tiles(xs, lo, mid) && Tiles(ys, mid, hi)
    ensures Tiles(xs + ys, lo, hi)
    decreases |xs|
  {
    if xs == [] {
      assert xs + ys == ys;
    } else {
      TilesConcat(xs[1..], ys, lo + xs[0].1, mid, hi);
      assert (xs + ys)[1..] == xs[1..] + ys;
    }
  }

  /** The scalars of a type tile its image exactly. */
  lemma {:induction false} LeavesTile(t: DType, a: nat)
    requires Shaped(t)
    ensures Tiles(Leaves(t, a), a, a + Size(t))
    decreases t, NumSubvals(t) + 1
  {
    if IsContainer(t.tag) {
      LeavesTileFrom(t, 0, a);
    } else {
      assert Leaves(t, a)[1..] == [];
    }
  }

  lemma {:induction false} LeavesTileFrom(t: DType, i: nat, a: nat)
    requires IsContainer(t.tag) && Shaped(t) && i <= NumSubvals(t)
    ensures Tiles(LeavesFrom(t, i, a), a + Offset(t, i), a + Size(t))
    decreases t, NumSubvals(t) - i
  {
    if i < NumSubvals(t) {
      ShapedComponent(t, i);
      LeavesTile(Component(t, i), a + Offset(t, i));
      LeavesTileFrom(t, i + 1, a);
      TilesConcat(Leaves(Component(t, i), a + Offset(t, i)), LeavesFrom(t, i + 1, a),
                  a + Offset(t, i), a + Offset(t, i + 1), a + Size(t));
    }
  }
}
