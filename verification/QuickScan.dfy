/** toplevel_type of src/adiak.c: the scan by which adiak_namevalue decides how to fetch its value
    argument before the type string is parsed. What it says must agree with the parse. */
module QuickScan {
  import opened AdiakTypes
  import opened TypeStrings

  function SkipPrefix(s: string, i: nat): (p: nat)
    requires i <= |s|
    ensures i <= p <= |s| && (At(s, p) != '&' && !IsSeparator(At(s, p)))
    decreases |s| - i
  {
    if i < |s| && (IsSeparator(s[i]) || s[i] == '&') then SkipPrefix(s, i + 1) else i
  }

  /** The tag for the scalar whose first character after '%' is at c. */
  function ScalarTag(s: string, c: nat): Tag
    requires c <= |s| && CString(s)
  {
    match At(s, c)
    case 'l' =>
      if At(s, c + 1) == 'd' then Long
      else if At(s, c + 1) == 'u' then ULong
      else if At(s, c + 1) == 'l' && At(s, c + 2) == 'd' then LongLong
      else if At(s, c + 1) == 'l' && At(s, c + 2) == 'u' then ULongLong
      else Unset
    case 'd' => Int
    case 'i' => if ScalarLenSpec(s, c).0 == 8 then LongLong else Int
    case 'u' => if ScalarLenSpec(s, c).0 == 8 then ULongLong else UInt
    case 'f' => Double
    case 'D' => Date
    case 't' => Timeval
    case 'v' => Version
    case 's' => String
    case 'r' => CatString
    case 'j' => JsonString
    case 'p' => Path
    case _ => Unset
  }

  function TagFrom(s: string, p: nat): Tag
    requires p <= |s| && CString(s)
  {
    if At(s, p) == '%' then ScalarTag(s, p + 1)
    else match At(s, p)
      case '<' => Range
      case '[' => Set
      case '{' => List
      case '(' => Tuple
      case _ => Unset
  }

  /** toplevel_type */
  method ToplevelType(s: string) returns (tag: Tag)
    requires CString(s)
    ensures tag == TagFrom(s, SkipPrefix(s, 0))
  {
    var cur := 0;
    while IsSpace(At(s, cur)) || At(s, cur) == ',' || At(s, cur) == '&'
      invariant cur <= |s| && SkipPrefix(s, cur) == SkipPrefix(s, 0)
      decreases |s| - cur
    {
      cur := cur + 1;
    }
    tag := TagFrom(s, cur);
  }

  /** The string, after its prefix, is %lu or %llu with a length specifier that the parser goes by
      and the scan does not. */
  predicate LongWithLength(s: string)
    requires CString(s)
  {
    var p := SkipPrefix(s, 0);
    && At(s, p) == '%' && At(s, p + 1) == 'l'
    && (|| (At(s, p + 2) == 'u' && ScalarLenSpec(s, p + 2).0 in {1, 2, 4, 8})
        || (At(s, p + 2) == 'l' && At(s, p + 3) == 'u' && ScalarLenSpec(s, p + 3).0 in {1, 2, 4}))
  }

  /** If the parse succeeds, the scan starts on the same character. */
  lemma SameStart(s: string, dims: seq<nat>)
    requires CString(s) && ParseString(s, dims).t.Some?
    ensures var p := SkipSeparators(s, 0);
            SkipPrefix(s, 0) == if At(s, p) == '&' then p + 1 else p
  {
    var p := SkipSeparators(s, 0);
    PrefixOfSeparators(s, 0);
    assert SkipPrefix(s, 0) == SkipPrefix(s, p);
    var cur := if At(s, p) == '&' then p + 1 else p;
    assert ParseString(s, dims) == ParseAt(s, cur, |s|, At(s, p) == '&', dims, 0, 0);
    assert IsOpener(At(s, cur)) || At(s, cur) == '%' || At(s, cur) == NUL;
    assert SkipPrefix(s, p) == SkipPrefix(s, cur) == cur;
  }

  lemma {:induction false} PrefixOfSeparators(s: string, i: nat)
    requires i <= |s|
    ensures SkipPrefix(s, i) == SkipPrefix(s, SkipSeparators(s, i))
    decreases |s| - i
  {
    if i < |s| && IsSeparator(s[i]) {
      PrefixOfSeparators(s, i + 1);
    }
  }

  lemma ScalarTagAgrees(s: string, c: nat, isReference: bool)
    requires CString(s) && c <= |s| && ParseScalar(s, c, isReference).Some? && ScalarTag(s, c) != Unset
    ensures var lu := At(s, c) == 'l' &&
              (|| (At(s, c + 1) == 'u' && ScalarLenSpec(s, c + 1).0 in {1, 2, 4, 8})
               || (At(s, c + 1) == 'l' && At(s, c + 2) == 'u' && ScalarLenSpec(s, c + 2).0 in {1, 2, 4}));
            ScalarTag(s, c) == ParseScalar(s, c, isReference).value.0.tag <==> !lu
  {
    var k := LetterAt(s, c);
    assert At(s, c) != 'l' ==> k == c;
    assert At(s, c) == 'l' && At(s, c + 1) != 'l' ==> k == c + 1;
    assert At(s, c) == 'l' && At(s, c + 1) == 'l' ==> k == c + 2;
  }

  /** Whenever the scan finds a type and the parse succeeds, the two agree on the tag, except
      exactly for the strings of LongWithLength. */
  lemma ScanAgrees(s: string, dims: seq<nat>)
    requires CString(s) && ParseString(s, dims).t.Some? && TagFrom(s, SkipPrefix(s, 0)) != Unset
    ensures TagFrom(s, SkipPrefix(s, 0)) == ParseString(s, dims).t.value.tag <==> !LongWithLength(s)
  {
    SameStart(s, dims);
    var p := SkipSeparators(s, 0);
    var ref, cur := At(s, p) == '&', SkipPrefix(s, 0);
    assert ParseString(s, dims) == ParseAt(s, cur, |s|, ref, dims, 0, 0);
    if At(s, cur) == '%' {
      ScalarTagAgrees(s, cur + 1, ref);
    } else {
      BraceTagAgrees(s, cur, ref, dims);
    }
  }

  lemma BraceTagAgrees(s: string, cur: nat, ref: bool, dims: seq<nat>)
    requires CString(s) && cur <= |s| && At(s, cur) != '%'
    ensures var r := ParseAt(s, cur, |s|, ref, dims, 0, 0);
            r.t.Some? && cur < |s| ==> IsOpener(s[cur]) && r.t.value.tag == BraceTag(s[cur])
  {
  }
}
