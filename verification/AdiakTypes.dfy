/** The type descriptors of the C library: the tags and value categories of include/adiak.h, the
    static descriptors for scalars, and what it means for a descriptor to be well formed. */
module AdiakTypes {

  datatype Option<+T> = None | Some(value: T)

  /** The terminator of a C string. */
  const NUL: char := '\0'

  datatype Tag =
    | Unset
    | Long | ULong | Int | UInt | Double | Date | Timeval
    | Version | String | CatString | Path
    | Range | Set | List | Tuple
    | LongLong | ULongLong | JsonString

  datatype Numerical = NumericalUnset | Categorical | Ordinal | Interval | Rational

  /** adiak_datatype_t. The field num_subtypes is |subtype|. */
  datatype DType = DType(
    tag: Tag,
    numerical: Numerical,
    numElements: nat,
    subtype: seq<DType>,
    isReference: bool,
    numRefElements: nat,
    numBytes: nat)

  // Sizes of the C types on an LP64 platform.
  const SIZEOF_LONG: nat := 8
  const SIZEOF_LONG_LONG: nat := 8
  const SIZEOF_INT: nat := 4
  const SIZEOF_DOUBLE: nat := 8
  const SIZEOF_FLOAT: nat := 4
  const SIZEOF_POINTER: nat := 8

  // The static descriptors. A static descriptor is never allocated and never freed.
  const BASE_LONG := DType(Long, Rational, 0, [], false, 0, SIZEOF_LONG)
  const BASE_ULONG := DType(ULong, Rational, 0, [], false, 0, SIZEOF_LONG)
  const BASE_LONGLONG := DType(LongLong, Rational, 0, [], false, 0, SIZEOF_LONG_LONG)
  const BASE_ULONGLONG := DType(ULongLong, Rational, 0, [], false, 0, SIZEOF_LONG_LONG)
  const BASE_INT := DType(Int, Rational, 0, [], false, 0, SIZEOF_INT)
  const BASE_I8 := DType(Int, Rational, 0, [], false, 0, 1)
  const BASE_I16 := DType(Int, Rational, 0, [], false, 0, 2)
  const BASE_U8 := DType(UInt, Rational, 0, [], false, 0, 1)
  const BASE_U16 := DType(UInt, Rational, 0, [], false, 0, 2)
  const BASE_UINT := DType(UInt, Rational, 0, [], false, 0, SIZEOF_INT)
  const BASE_DOUBLE := DType(Double, Rational, 0, [], false, 0, SIZEOF_DOUBLE)
  const BASE_FLOAT := DType(Double, Rational, 0, [], false, 0, SIZEOF_FLOAT)
  const BASE_DATE := DType(Date, Interval, 0, [], false, 0, SIZEOF_LONG)
  const BASE_TIMEVAL := DType(Timeval, Interval, 0, [], false, 0, SIZEOF_POINTER)
  const BASE_VERSION := DType(Version, Ordinal, 0, [], false, 0, SIZEOF_POINTER)
  const BASE_STRING := DType(String, Ordinal, 0, [], false, 0, SIZEOF_POINTER)
  const BASE_CATSTRING := DType(CatString, Categorical, 0, [], false, 0, SIZEOF_POINTER)
  const BASE_JSONSTRING := DType(JsonString, Categorical, 0, [], false, 0, SIZEOF_POINTER)
  const BASE_PATH := DType(Path, Categorical, 0, [], false, 0, SIZEOF_POINTER)
  const BASE_VERSION_REF := BASE_VERSION.(isReference := true)
  const BASE_STRING_REF := BASE_STRING.(isReference := true)
  const BASE_CATSTRING_REF := BASE_CATSTRING.(isReference := true)
  const BASE_JSONSTRING_REF := BASE_JSONSTRING.(isReference := true)
  const BASE_PATH_REF := BASE_PATH.(isReference := true)

  /** The zeroed descriptor that the parser returns for a blank string. */
  const UNSET_NODE := DType(Unset, NumericalUnset, 0, [], false, 0, 0)

  predicate IsContainer(tag: Tag) {
    tag.Range? || tag.Set? || tag.List? || tag.Tuple?
  }

  predicate IsText(tag: Tag) {
    tag.Version? || tag.String? || tag.CatString? || tag.JsonString? || tag.Path?
  }

  /** adiak_numerical_from_type */
  function NumericalFromType(tag: Tag): Numerical {
    match tag
    case Unset => NumericalUnset
    case Long | ULong | LongLong | ULongLong | Int | UInt | Double => Rational
    case Date | Timeval => Interval
    case Version | String => Ordinal
    case CatString | JsonString | Path | Range | Set | List | Tuple => Categorical
  }

  /** adiak_get_basetype; None models the NULL result. */
  function GetBaseType(tag: Tag): (t: Option<DType>)
    ensures t.Some? <==> !IsContainer(tag) && !tag.Unset?
    ensures t.Some? ==> t.value.tag == tag && IsStatic(t.value) && !t.value.isReference
    ensures t.Some? ==> t.value.numBytes == if tag.Int? || tag.UInt? then 4 else 8
  {
    match tag
    case Unset => None
    case Long => Some(BASE_LONG)
    case ULong => Some(BASE_ULONG)
    case LongLong => Some(BASE_LONGLONG)
    case ULongLong => Some(BASE_ULONGLONG)
    case Int => Some(BASE_INT)
    case UInt => Some(BASE_UINT)
    case Double => Some(BASE_DOUBLE)
    case Date => Some(BASE_DATE)
    case Timeval => Some(BASE_TIMEVAL)
    case Version => Some(BASE_VERSION)
    case String => Some(BASE_STRING)
    case CatString => Some(BASE_CATSTRING)
    case JsonString => Some(BASE_JSONSTRING)
    case Path => Some(BASE_PATH)
    case Range | Set | List | Tuple => None
  }

  /** t is one of the static descriptors. */
  predicate IsStatic(t: DType) {
    && !IsContainer(t.tag) && !t.tag.Unset?
    && t.subtype == [] && t.numElements == 0 && t.numRefElements == 0
    && t.numerical == NumericalFromType(t.tag)
    && (t.isReference ==> IsText(t.tag))
    && match t.tag
       case Int | UInt => t.numBytes in {1, 2, SIZEOF_INT}
       case Double => t.numBytes in {SIZEOF_FLOAT, SIZEOF_DOUBLE}
       case LongLong | ULongLong => t.numBytes == SIZEOF_LONG_LONG
       case Long | ULong | Date => t.numBytes == SIZEOF_LONG
       case _ => t.numBytes == SIZEOF_POINTER
  }

  /** adiak_num_subvals: the element count, on whichever side of the reference flag it is kept. */
  function NumSubvals(t: DType): nat {
    t.numElements + t.numRefElements
  }

  /** The descriptor has the subtypes its tag asks for, at every level. */
  predicate Shaped(t: DType) {
    if IsContainer(t.tag) then
      && (t.tag.Tuple? ==> |t.subtype| == NumSubvals(t))
      && (!t.tag.Tuple? ==> |t.subtype| == 1)
      && (t.tag.Range? ==> NumSubvals(t) == 2)
      && (forall i :: 0 <= i < |t.subtype| ==> Shaped(t.subtype[i]))
    else
      IsStatic(t)
  }

  /** Element counts are on the correct side of the reference flag, and no container or string
      below a referenced container is marked as copied. */
  predicate Sided(t: DType) {
    && (if t.isReference then t.numElements == 0 else t.numRefElements == 0)
    && (forall i :: 0 <= i < |t.subtype| ==>
          && Sided(t.subtype[i])
          && (t.isReference && (IsContainer(t.subtype[i].tag) || IsText(t.subtype[i].tag)) ==>
                t.subtype[i].isReference))
  }

  /** The value category of every node is the one adiak_numerical_from_type gives for its tag. */
  predicate Categorized(t: DType) {
    && t.numerical == NumericalFromType(t.tag)
    && (forall i :: 0 <= i < |t.subtype| ==> Categorized(t.subtype[i]))
  }

  predicate WellFormed(t: DType) {
    Shaped(t) && Sided(t)
  }

  predicate HasComponent(t: DType, i: nat) {
    IsContainer(t.tag) && i < NumSubvals(t) && (if t.tag.Tuple? then i < |t.subtype| else t.subtype != [])
  }

  /** The subtype that component i of a container has. */
  function Component(t: DType, i: nat): (c: DType)
    requires HasComponent(t, i)
    ensures c < t
  {
    if t.tag.Tuple? then t.subtype[i] else t.subtype[0]
  }

  lemma ShapedComponent(t: DType, i: nat)
    requires Shaped(t) && IsContainer(t.tag) && i < NumSubvals(t)
    ensures HasComponent(t, i) && Shaped(Component(t, i))
  {
  }

  lemma SidedComponent(t: DType, i: nat)
    requires HasComponent(t, i) && Sided(t)
    ensures var c := Component(t, i);
            Sided(c) && (t.isReference && (IsContainer(c.tag) || IsText(c.tag)) ==> c.isReference)
  {
  }
}
