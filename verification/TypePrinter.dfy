/** The type printer of src/adiak.c: one recursive routine that is run twice, first to measure the
    text of a type and then to write it into a buffer of exactly that size. */
module TypePrinter {
  import opened AdiakTypes

  function SimpleText(tag: Tag, longForm: bool): (s: string)
    ensures s != ""
  {
    match tag
    case Long => if longForm then "long" else "%ld"
    case ULong => if longForm then "unsigned long" else "%lu"
    case LongLong => if longForm then "long long" else "%lld"
    case ULongLong => if longForm then "unsigned long long" else "%llu"
    case Int => if longForm then "int" else "%d"
    case UInt => if longForm then "unsigned int" else "%u"
    case Double => if longForm then "double" else "%f"
    case Date => if longForm then "date" else "%D"
    case Timeval => if longForm then "timeval" else "%t"
    case Version => if longForm then "version" else "%v"
    case String => if longForm then "string" else "%s"
    case CatString => if longForm then "catstring" else "%r"
    case JsonString => if longForm then "jsonstring" else "%j"
    case Path => if longForm then "path" else "%p"
    case _ => "unset"
  }

  function Opening(tag: Tag, longForm: bool): (s: string)
    requires IsContainer(tag)
    ensures s != ""
  {
    match tag
    case Range => if longForm then "range of " else "<"
    case Set => if longForm then "set of " else "["
    case List => if longForm then "list of " else "{"
    case Tuple => if longForm then "tuple of (" else "("
  }

  function Closing(tag: Tag, longForm: bool): string
    requires IsContainer(tag)
  {
    match tag
    case Range => if longForm then ">" else ""
    case Set => if longForm then "" else "]"
    case List => if longForm then "" else "}"
    case Tuple => ")"
  }

  /** The text of a type, in the long or the short form. */
  function TypeText(t: DType, longForm: bool): (s: string)
    ensures s != ""
    decreases t, |t.subtype| + 1
  {
    if IsContainer(t.tag) then Opening(t.tag, longForm) + TextFrom(t.subtype, 0, longForm) + Closing(t.tag, longForm)
    else SimpleText(t.tag, longForm)
  }

  /** The texts of the subtypes from index i on, with a comma and a space between them. */
  function TextFrom(ts: seq<DType>, i: nat, longForm: bool): string
    requires i <= |ts|
    decreases ts, |ts| - i + 1
  {
    if i == |ts| then ""
    else Piece(ts, i, longForm) + TextFrom(ts, i + 1, longForm)
  }

  function Piece(ts: seq<DType>, i: nat, longForm: bool): string
    requires i < |ts|
    decreases ts, 0
  {
    TypeText(ts[i], longForm) + if i + 1 == |ts| then "" else ", "
  }

  lemma TextStep(ts: seq<DType>, i: nat, longForm: bool, done: string)
    requires i < |ts|
    ensures done + Piece(ts, i, longForm) + TextFrom(ts, i + 1, longForm) == done + TextFrom(ts, i, longForm)
  {
  }

  /** Between before and after, exactly s and a terminator were written at pos. */
  ghost predicate Wrote(before: seq<char>, pos: nat, s: string, after: seq<char>) {
    && |after| == |before| && pos + |s| < |before|
    && forall k :: 0 <= k < |after| ==> after[k] == WrittenAt(before, pos, s, k)
  }

  function WrittenAt(before: seq<char>, pos: nat, s: string, k: nat): char
    requires k < |before|
  {
    if pos <= k < pos + |s| then s[k - pos] else if k == pos + |s| then NUL else before[k]
  }

  lemma WroteTwice(a: seq<char>, pos: nat, s1: string, b: seq<char>, s2: string, c: seq<char>)
    requires Wrote(a, pos, s1, b) && Wrote(b, pos + |s1|, s2, c)
    ensures Wrote(a, pos, s1 + s2, c)
  {
  }

  /** snprintf(str + pos, str.Length - pos, "%s", s): writes as much of s as leaves room for the
      terminator, and returns the length of s whether or not all of it was written. */
  method Snprintf(str: array<char>, pos: nat, s: string) returns (result: nat)
    requires pos < str.Length
    modifies str
    ensures result == |s|
    ensures Wrote(old(str[..]), pos, if pos + |s| < str.Length then s else s[..str.Length - pos - 1], str[..])
  {
    var n := if pos + |s| < str.Length then |s| else str.Length - pos - 1;
    for k := 0 to n
      invariant forall j :: 0 <= j < str.Length ==> str[j] == if pos <= j < pos + k then s[j - pos] else old(str[j])
    {
      str[pos + k] := s[k];
    }
    str[pos + n] := NUL;
    result := |s|;
  }

  /** One piece of output: printed in the writing pass, only counted in the other. */
  method Emit(str: array?<char>, pos: nat, s: string, sizeCalcOnly: bool) returns (result: nat)
    requires !sizeCalcOnly ==> str != null && pos + |s| < str.Length
    modifies if sizeCalcOnly then {} else {str}
    ensures result == |s|
    ensures !sizeCalcOnly ==> Wrote(old(str[..]), pos, s, str[..])
  {
    if !sizeCalcOnly {
      result := Snprintf(str, pos, s);
    } else {
      result := |s|;
    }
  }

  /** adiak_type_string_helper. In both passes the result is the length of the text; the writing
      pass, given room for the text and the terminator, writes all of it and nothing else. */
  method TypeStringHelper(t: DType, str: array?<char>, pos: nat, longForm: bool, sizeCalcOnly: bool) returns (n: nat)
    requires !sizeCalcOnly ==> str != null && pos + |TypeText(t, longForm)| < str.Length
    modifies if sizeCalcOnly then {} else {str}
    ensures n == |TypeText(t, longForm)|
    ensures !sizeCalcOnly ==> Wrote(old(str[..]), pos, TypeText(t, longForm), str[..])
    decreases t, 1
  {
    if !IsContainer(t.tag) {
      n := Emit(str, pos, SimpleText(t.tag, longForm), sizeCalcOnly);
    } else {
      ghost var opening, body, closing := Opening(t.tag, longForm), TextFrom(t.subtype, 0, longForm),
        Closing(t.tag, longForm);
      n := Emit(str, pos, Opening(t.tag, longForm), sizeCalcOnly);
      ghost var a := if sizeCalcOnly then [] else str[..];
      var m := SubtypesHelper(t.subtype, str, pos + n, longForm, sizeCalcOnly);
      ghost var b := if sizeCalcOnly then [] else str[..];
      n := n + m;
      m := Emit(str, pos + n, Closing(t.tag, longForm), sizeCalcOnly);
      n := n + m;
      if !sizeCalcOnly {
        WroteTwice(old(str[..]), pos, opening, a, body, b);
        WroteTwice(old(str[..]), pos, opening + body, b, closing, str[..]);
      }
    }
  }

  /** The loop of adiak_type_string_helper over the subtypes. */
  method SubtypesHelper(ts: seq<DType>, str: array?<char>, pos: nat, longForm: bool, sizeCalcOnly: bool)
    returns (n: nat)
    requires !sizeCalcOnly ==> str != null && pos + |TextFrom(ts, 0, longForm)| < str.Length && str[pos] == NUL
    modifies if sizeCalcOnly then {} else {str}
    ensures n == |TextFrom(ts, 0, longForm)|
    ensures !sizeCalcOnly ==> Wrote(old(str[..]), pos, TextFrom(ts, 0, longForm), str[..])
    decreases ts, 0
  {
    n := 0;
    var i := 0;
    ghost var done, before := "", if sizeCalcOnly then [] else str[..];
    ghost var now, whole := before, TextFrom(ts, 0, longForm);
    while i < |ts|
      invariant 0 <= i <= |ts| && n == |done|
      invariant done + TextFrom(ts, i, longForm) == whole
      invariant !sizeCalcOnly ==> str[..] == now && Wrote(before, pos, done, now)
    {
      ghost var piece := Piece(ts, i, longForm);
      TextStep(ts, i, longForm, done);
      assert |done + piece| <= |whole|;
      var m := SubtypeHelper(ts[i], i + 1 == |ts|, str, pos + n, longForm, sizeCalcOnly);
      if !sizeCalcOnly {
        WroteTwice(before, pos, done, now, piece, str[..]);
        now := str[..];
      }
      n, done := n + m, done + piece;
      i := i + 1;
    }
    assert done == whole;
  }

  /** One turn of the loop: a subtype, and the separator unless it is the last. */
  method SubtypeHelper(t: DType, isLast: bool, str: array?<char>, pos: nat, longForm: bool, sizeCalcOnly: bool)
    returns (n: nat)
    requires !sizeCalcOnly ==> str != null && pos + |TypeText(t, longForm)| + (if isLast then 0 else 2) < str.Length
    modifies if sizeCalcOnly then {} else {str}
    ensures var piece := TypeText(t, longForm) + if isLast then "" else ", ";
            n == |piece| && (!sizeCalcOnly ==> Wrote(old(str[..]), pos, piece, str[..]))
    decreases t, 2
  {
    n := TypeStringHelper(t, str, pos, longForm, sizeCalcOnly);
    ghost var a := if sizeCalcOnly then [] else str[..];
    if isLast {
      assert TypeText(t, longForm) + "" == TypeText(t, longForm);
    } else {
      var m := Emit(str, pos + n, ", ", sizeCalcOnly);
      if !sizeCalcOnly {
        WroteTwice(old(str[..]), pos, TypeText(t, longForm), a, ", ", str[..]);
      }
      n := n + m;
    }
  }

  /** adiak_type_to_string: the buffer holds the text and its terminator, and nothing was cut off. */
  method TypeToString(t: DType, longForm: bool) returns (buffer: array?<char>)
    ensures buffer != null && fresh(buffer) && buffer[..] == TypeText(t, longForm) + [NUL]
  {
    var len := TypeStringHelper(t, null, 0, longForm, true);
    if len <= 0 {
      return null;
    }
    buffer := new char[len + 1];
    var len2 := TypeStringHelper(t, buffer, 0, longForm, false);
    assert len == len2;
    buffer[len] := NUL;
  }
}
