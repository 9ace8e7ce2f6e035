/** adiak_namevalue of src/adiak.c up to the registration: the scan, the parse and the copy together
    turn a type string and an argument into a type and a value to hand over. */
module NameValue {
  import opened AdiakTypes
  import opened CHeap
  import opened TypeStrings
  import opened QuickScan
  import opened Layout
  import opened Views
  import opened Readings
  import opened DeepCopy
  import opened Records
  import L = Ledger

  /** The argument after the type string: a number, a pointer to a string or a struct timeval, or the
      address of a container's image. */
  datatype Arg = Integer(n: int) | Real(x: Number) | Pointer(p: nat) | Address(a: nat)

  /** The caller passes what the scan makes the library fetch. */
  predicate Fits(tag: Tag, arg: Arg, objs: Objs) {
    if IsContainer(tag) then arg.Address?
    else if tag.Timeval? then arg.Pointer? && arg.p in objs && objs[arg.p].Time?
    else if IsText(tag) then arg.Pointer? && arg.p in objs && objs[arg.p].Text?
    else if tag.Double? then arg.Real?
    else arg.Integer? && InRange(tag, arg.n)
  }

  /** A container's image is there and its pointers are readable. */
  predicate Readable(objs: Objs, mem: seq<Byte>, t: DType, arg: Arg) {
    arg.Address? ==> arg.a + Size(t) <= |mem| && Decode(objs, mem, t, arg.a).Some?
  }

  /** What the caller means by the argument. */
  function Meaning(objs: Objs, mem: seq<Byte>, t: DType, arg: Arg): Option<Tree> {
    match arg
    case Integer(n) => Some(TInt(n))
    case Real(x) => Some(TReal(x))
    case Pointer(p) => PointedTo(objs, t.tag, p)
    case Address(a) => Stored(objs, mem, t, a)
  }

  /** The member that the library stores a fetched number in. */
  function Fetched(tag: Tag, arg: Arg): Value {
    if arg.Real? then VDouble(arg.x)
    else if !arg.Integer? then VPtr(0)
    else if tag.Int? || tag.UInt? then VInt(Signed(tag, arg.n))
    else if tag.LongLong? || tag.ULongLong? then VLongLong(Signed(tag, arg.n))
    else VLong(Signed(tag, arg.n))
  }

  /** What a reader finds, before any cast: a number is cut to the member that the type is read from. */
  function Taken(objs: Objs, mem: seq<Byte>, t: DType, arg: Arg): Option<Tree> {
    match arg
    case Integer(n) => Some(TInt(Signed(t.tag, n)))
    case Real(x) => Some(TReal(x))
    case Pointer(p) => PointedTo(objs, t.tag, p)
    case Address(a) => Decode(objs, mem, t, a)
  }

  /** The argument has an unsigned number of one or two bytes in it whose top bit is set. */
  predicate Widens(mem: seq<Byte>, t: DType, arg: Arg) {
    arg.Address? && HighNarrow(mem, t, arg.a)
  }

  /** The scan has overlooked that the type is one of four bytes or less, and the number needs more. */
  predicate Truncates(f: Form, arg: Arg) {
    f.wrong && f.parsed.Some? && f.parsed.value.tag.UInt? && arg.Integer? && arg.n >= 0x1_0000_0000
  }

  function ScannedTag(s: string): Tag
    requires CString(s)
  {
    TagFrom(s, SkipPrefix(s, 0))
  }

  /** The scan finds a type and the parse succeeds. */
  predicate Succeeds(s: string, dims: seq<nat>)
    requires CString(s)
  {
    ScannedTag(s) != Unset && ParseString(s, dims).t.Some?
  }

  /** What the scan takes for a type, the parser does not take for a blank string. */
  lemma ParsedIsWellFormed(s: string, dims: seq<nat>)
    requires CString(s) && ParseString(s, dims).t.Some? && ScannedTag(s) != Unset
    ensures WellFormed(ParseString(s, dims).t.value)
  {
    ParseIsSound(s, 0, |s|, false, dims, 0, 0);
    SameStart(s, dims);
    var p, cur := SkipSeparators(s, 0), SkipPrefix(s, 0);
    assert ParseString(s, dims) == ParseAt(s, cur, |s|, At(s, p) == '&', dims, 0, 0);
    if At(s, cur) != '%' {
      assert ParseString(s, dims) == ParseBraced(s, cur, |s|, At(s, p) == '&', dims, 0, 0);
      assert ParseString(s, dims).t.value.tag == BraceTag(s[cur]);
    }
  }

  /** h has the value's cell more than h0, and the copy of a struct timeval. */
  ghost predicate Began(h0: Heap, tag: Tag, h: Heap) {
    h0.GrowsTo(h) && h.next == h0.next + if tag.Timeval? then 2 else 1
  }

  /** Allocates the value and fetches a number or a struct timeval; strings and containers wait for the type. */
  method Fetch(tag: Tag, arg: Arg, h0: Heap) returns (value: Value, h: Heap)
    requires h0.Valid() && Fits(tag, arg, h0.objs)
    ensures Began(h0, tag, h)
    ensures tag.Timeval? ==> value == VPtr(h0.next + 1) && h.objs[h0.next + 1] == h0.objs[arg.p]
    ensures !tag.Timeval? && !IsContainer(tag) && !IsText(tag) ==> value == Fetched(tag, arg)
  {
    value, h := VPtr(0), h0.Malloc(Raw);
    if tag.Timeval? {
      value, h := VPtr(h.next), h.Malloc(h0.objs[arg.p]);
    } else if !IsContainer(tag) && !IsText(tag) {
      value := Fetched(tag, arg);
    }
  }

  /** Copies a string or a container, unless the type says reference. Its blocks and objs, where the
      argument leads, are all that a reader of it needs. */
  method CopyArgument(t: DType, arg: Arg, mem: seq<Byte>, ghost objs: Objs, h0: Heap) returns (value: Value, h: Heap)
    requires WellFormed(t) && h0.Valid() && (IsContainer(t.tag) || IsText(t.tag)) && Fits(t.tag, arg, objs)
    requires Readable(objs, mem, t, arg) && Extends(objs, h0.objs)
    ensures h0.GrowsTo(h) && h.next == h0.next + ValueSpan(t, value) && Placed(t, value, h0.next)
    ensures Walk(Since(objs, h0, h), mem, t, value) == Taken(objs, mem, t, arg)
  {
    if IsContainer(t.tag) {
      value, h := StoreContainer(t, mem, arg.a, objs, h0);
    } else {
      value, h := CopyPointer(t, arg.p, objs, h0);
    }
  }

  /** Without a copy: the value is a number or a copied struct timeval. */
  lemma PreparedFetched(h0: Heap, tag: Tag, arg: Arg, value: Value, h1: Heap, t: DType, h: Heap)
    requires Began(h0, tag, h1) && !IsContainer(tag) && !IsText(tag) && IsStatic(t) && !IsText(t.tag)
    requires (t.tag.Timeval? <==> tag.Timeval?) && (tag.Timeval? ==> value == VPtr(h0.next + 1))
    requires h1.GrowsTo(h) && h.next == h1.next + Span(t)
    ensures L.Prepared(h0, Handle(t, h1.next, value, h0.next, h0.next + 1), h)
  {
  }

  /** With a copy: its blocks come after those of the type. */
  lemma PreparedCopied(h0: Heap, h1: Heap, t: DType, h2: Heap, value: Value, h: Heap)
    requires Began(h0, t.tag, h1) && !t.tag.Timeval? && h1.GrowsTo(h2) && h2.next == h1.next + Span(t)
    requires h2.GrowsTo(h) && h.next == h2.next + ValueSpan(t, value) && Placed(t, value, h2.next)
    ensures L.Prepared(h0, Handle(t, h1.next, value, h0.next, h2.next), h)
  {
  }

  /** Where the scan and the parser disagree about a number, the one takes eight bytes for it, and the other
      as many or the low ones. */
  predicate TagsMix(scanned: Tag, parsed: Tag) {
    scanned == parsed || (scanned in {ULong, ULongLong} && parsed in {UInt, ULongLong})
  }

  lemma NumberWalks(scanned: Tag, t: DType, arg: Arg, mem: seq<Byte>, objs: Objs, more: Objs)
    requires TagsMix(scanned, t.tag) && scanned != Unset && Fits(scanned, arg, objs)
    requires !IsContainer(scanned) && !IsText(scanned) && !scanned.Timeval?
    ensures WalkScalar(more, t, Fetched(scanned, arg)) == Taken(objs, mem, t, arg)
  {
    if arg.Integer? {
      LowOfLong(arg.n);
    }
  }

  /** A number is found in the member that it is read from, even if it was stored in another one. */
  lemma FetchedWalks(s: string, dims: seq<nat>, arg: Arg, mem: seq<Byte>, objs: Objs, value: Value, more: Objs)
    requires CString(s) && ScannedTag(s) != Unset && ParseString(s, dims).t.Some? && Fits(ScannedTag(s), arg, objs)
    requires !IsContainer(ScannedTag(s)) && !IsText(ScannedTag(s))
    requires if ScannedTag(s).Timeval? then value.VPtr? && value.p in more && more[value.p] == objs[arg.p]
             else value == Fetched(ScannedTag(s), arg)
    ensures var t := ParseString(s, dims).t.value;
            && IsStatic(t) && !IsText(t.tag) && (t.tag.Timeval? <==> ScannedTag(s).Timeval?)
            && Walk(more, mem, t, value) == Taken(objs, mem, t, arg)
  {
    ParsedIsWellFormed(s, dims);
    ScanAgrees(s, dims);
    if LongWithLength(s) {
      WrongMember(s, dims);
    }
    if !ScannedTag(s).Timeval? {
      NumberWalks(ScannedTag(s), ParseString(s, dims).t.value, arg, mem, objs, more);
    }
  }

  lemma LowOfShifted(x: int, k: int)
    ensures (x + 0x1_0000_0000 * k) % 0x1_0000_0000 == x % 0x1_0000_0000
  {
  }

  /** What v_int shows of a number in v_long is the number cut to an int. */
  lemma LowOfLong(n: int)
    ensures LowInt(Signed(ULong, n)) == Signed(UInt, n)
  {
    var q, m := n / 0x1_0000_0000_0000_0000, n % 0x1_0000_0000_0000_0000;
    LowOfShifted(m, 0x1_0000_0000 * q);
    LowOfShifted(m, -0x1_0000_0000);
  }

  /** What the parser makes of the strings that scan and parser disagree about. */
  lemma WrongMember(s: string, dims: seq<nat>)
    requires CString(s) && ParseString(s, dims).t.Some? && LongWithLength(s)
    ensures (ScannedTag(s) == ULong && ParseString(s, dims).t.value.tag in {UInt, ULongLong})
         || (ScannedTag(s) == ULongLong && ParseString(s, dims).t.value.tag == UInt)
    ensures IsStatic(ParseString(s, dims).t.value)
  {
    SameStart(s, dims);
    var p, cur := SkipSeparators(s, 0), SkipPrefix(s, 0);
    assert ParseString(s, dims) == ParseAt(s, cur, |s|, At(s, p) == '&', dims, 0, 0);
    assert ParseScalar(s, cur + 1, At(s, p) == '&').Some?;
  }

  /** How many blocks a failing call leaves behind. */
  function LostOnError(s: string, dims: seq<nat>): nat
    requires CString(s)
  {
    if ScannedTag(s) == Unset then 0 else ParseString(s, dims).lost + if ScannedTag(s).Timeval? then 1 else 0
  }

  /** The failing case: the value is freed. */
  method GiveUp(ghost h0: Heap, tag: Tag, ghost h1: Heap, ghost parseLost: set<nat>, cell: nat, h2: Heap)
    returns (h: Heap, ghost lost: set<nat>)
    requires Began(h0, tag, h1) && cell == h0.next && h1.Grows(parseLost, h2)
    ensures h0.Grows(lost, h) && |lost| == |parseLost| + if tag.Timeval? then 1 else 0
  {
    h := h2.Free(cell);
    lost := parseLost;
    if tag.Timeval? {
      assert cell + 1 !in parseLost;
      lost := parseLost + {cell + 1};
    }
  }

  /** x is the type and the value of a successful call, and shows what the argument was taken for. */
  ghost predicate Handed(arg: Arg, mem: seq<Byte>, objs: Objs, t: DType, h0: Heap, x: Handle, h: Heap) {
    && L.Prepared(h0, x, h) && x.dtype == t
    && Walk(Since(objs, h0, h), mem, t, x.value) == Taken(objs, mem, t, arg)
  }

  lemma FinishFetched(s: string, dims: seq<nat>, arg: Arg, mem: seq<Byte>, toptype: Tag, t: DType, fetched: Value,
      objs: Objs, h0: Heap, h1: Heap, h2: Heap)
    requires CString(s) && Some(t) == ParseString(s, dims).t
    requires ScannedTag(s) == toptype != Unset && Fits(toptype, arg, objs) && !IsContainer(toptype) && !IsText(toptype)
    requires Began(h0, toptype, h1) && h1.GrowsTo(h2) && h2.next == h1.next + Span(t)
    requires if toptype.Timeval? then fetched == VPtr(h0.next + 1) && h1.objs[h0.next + 1] == objs[arg.p]
             else fetched == Fetched(toptype, arg)
    ensures Handed(arg, mem, objs, t, h0, Handle(t, h1.next, fetched, h0.next, h0.next + 1), h2)
  {
    FetchedWalks(s, dims, arg, mem, objs, fetched, Since(objs, h0, h2));
    PreparedFetched(h0, toptype, arg, fetched, h1, t, h2);
  }

  /** A string or a container has the tag that the scan found. */
  lemma TagIsScanned(s: string, dims: seq<nat>)
    requires CString(s) && Succeeds(s, dims) && (IsContainer(ScannedTag(s)) || IsText(ScannedTag(s)))
    ensures WellFormed(ParseString(s, dims).t.value) && ParseString(s, dims).t.value.tag == ScannedTag(s) &&
        !LongWithLength(s)
  {
    ParsedIsWellFormed(s, dims);
    ScanAgrees(s, dims);
    if LongWithLength(s) {
      WrongMember(s, dims);
    }
  }

  lemma FinishCopied(arg: Arg, mem: seq<Byte>, t: DType, objs: Objs, h0: Heap, h1: Heap, h2: Heap, value: Value,
      h: Heap)
    requires Taken(objs, mem, t, arg).Some?
    requires Began(h0, t.tag, h1) && !t.tag.Timeval? && h1.GrowsTo(h2) && h2.next == h1.next + Span(t)
    requires h2.GrowsTo(h) && h.next == h2.next + ValueSpan(t, value) && Placed(t, value, h2.next)
    requires Walk(Since(objs, h2, h), mem, t, value) == Taken(objs, mem, t, arg)
    ensures Handed(arg, mem, objs, t, h0, Handle(t, h1.next, value, h0.next, h2.next), h)
  {
    PreparedCopied(h0, h1, t, h2, value, h);
    SinceWider(objs, h0, h2, h, mem, t, value);
  }

  /** The successful case, from the type on. */
  method Finish(s: string, dims: seq<nat>, arg: Arg, mem: seq<Byte>, toptype: Tag, t: DType, fetched: Value,
      ghost objs: Objs, h0: Heap, ghost h1: Heap, h2: Heap)
    returns (x: Handle, h: Heap)
    requires CString(s) && Some(t) == ParseString(s, dims).t && Extends(objs, h0.objs)
    requires ScannedTag(s) == toptype != Unset && Fits(toptype, arg, objs) && Readable(objs, mem, t, arg)
    requires Began(h0, toptype, h1) && h1.GrowsTo(h2) && h2.next == h1.next + Span(t)
    requires toptype.Timeval? ==> fetched == VPtr(h0.next + 1) && h1.objs[h0.next + 1] == objs[arg.p]
    requires !IsContainer(toptype) && !IsText(toptype) && !toptype.Timeval? ==> fetched == Fetched(toptype, arg)
    ensures Handed(arg, mem, objs, t, h0, x, h)
  {
    if IsContainer(toptype) || IsText(toptype) {
      TagIsScanned(s, dims);
      var value;
      value, h := CopyArgument(t, arg, mem, objs, h2);
      x := Handle(t, h2.next - Span(t), value, h0.next, h2.next);
      FinishCopied(arg, mem, t, objs, h0, h1, h2, value, h);
    } else {
      h := h2;
      x := Handle(t, h2.next - Span(t), fetched, h0.next, h0.next + 1);
      FinishFetched(s, dims, arg, mem, toptype, t, fetched, objs, h0, h1, h2);
    }
  }

  lemma SinceWider(objs: Objs, h0: Heap, h2: Heap, h: Heap, mem: seq<Byte>, t: DType, v: Value)
    requires h0.next <= h2.next && Walk(Since(objs, h2, h), mem, t, v).Some?
    ensures Walk(Since(objs, h0, h), mem, t, v) == Walk(Since(objs, h2, h), mem, t, v)
  {
    WalkExtends(Since(objs, h2, h), Since(objs, h0, h), mem, t, v);
  }

  /** What the scan and the parser make of a type string: the tag found by the scan, the type if both
      succeed, the number of blocks that a failing call leaves behind, and whether the scan's member of the
      union is the wrong one. */
  datatype Form = Form(tag: Tag, parsed: Option<DType>, lost: nat, wrong: bool)

  function FormOf(s: string, dims: seq<nat>): Form
    requires CString(s)
  {
    if ScannedTag(s) == Unset then Form(Unset, None, 0, false)
    else Form(ScannedTag(s), ParseString(s, dims).t, LostOnError(s, dims), LongWithLength(s))
  }

  /** A program can pass the argument with such a type string when objs is its own part of the heap. */
  predicate Callable(f: Form, arg: Arg, mem: seq<Byte>, objs: Objs) {
    f.tag != Unset ==> Fits(f.tag, arg, objs) && (f.parsed.Some? ==> Readable(objs, mem, f.parsed.value, arg))
  }

  /** adiak_namevalue before the call of adiak_raw_namevalue; None for the return of -1. If the parse fails
      the value is freed, but the copy of a struct timeval is not. */
  method Prepare(s: string, dims: seq<nat>, arg: Arg, mem: seq<Byte>, ghost objs: Objs, h0: Heap)
    returns (r: Option<Handle>, h: Heap, ghost lost: set<nat>)
    requires CString(s) && h0.Valid() && Extends(objs, h0.objs) && Callable(FormOf(s, dims), arg, mem, objs)
    ensures r.Some? <==> FormOf(s, dims).parsed.Some?
    ensures r.Some? ==> Handed(arg, mem, objs, FormOf(s, dims).parsed.value, h0, r.value, h)
    ensures r.None? ==> h0.Grows(lost, h) && |lost| == FormOf(s, dims).lost
  {
    h, r, lost := h0, None, {};
    var toptype := ToplevelType(s);
    if toptype == Unset {
      return;
    }
    var value, t;
    value, h := Fetch(toptype, arg, h0);
    ghost var h1 := h;
    t, h, lost := ParseTypestr(s, dims, h);
    if t.None? {
      h, lost := GiveUp(h0, toptype, h1, lost, h0.next, h);
      return;
    }
    var x;
    x, h := Finish(s, dims, arg, mem, toptype, t.value, value, objs, h0, h1, h);
    r := Some(x);
  }

  /** What a form can be: the type is well-formed and has the scanned tag, except for a number of which the
      scan overlooks the length. */
  predicate SoundForm(f: Form) {
    f.parsed.Some? ==>
      && f.tag != Unset && WellFormed(f.parsed.value)
      && TagsMix(f.tag, f.parsed.value.tag)
      && (f.wrong <==> f.parsed.value.tag != f.tag)
  }

  lemma FormIsSound(s: string, dims: seq<nat>)
    requires CString(s)
    ensures SoundForm(FormOf(s, dims))
  {
    if FormOf(s, dims).parsed.Some? {
      ParsedIsWellFormed(s, dims);
      ScanAgrees(s, dims);
      if LongWithLength(s) {
        WrongMember(s, dims);
      }
    }
  }

  /** What is stored reads as the caller meant it, with the documented casts, except exactly if the scan has
      overlooked the length of a %lu or %llu that the number does not fit in, or if an unsigned number of one
      or two bytes in a container was widened with its sign. */
  lemma ReadsAsMeant(f: Form, arg: Arg, mem: seq<Byte>, objs: Objs, more: Objs, v: Value)
    requires SoundForm(f) && f.parsed.Some? && Callable(f, arg, mem, objs)
    requires Walk(more, mem, f.parsed.value, v) == Taken(objs, mem, f.parsed.value, arg)
    ensures ReadBack(more, mem, f.parsed.value, v) == Meaning(objs, mem, f.parsed.value, arg)
       <==> !Truncates(f, arg) && !Widens(mem, f.parsed.value, arg)
  {
    if arg.Address? {
      ReadsAsStored(objs, mem, f.parsed.value, arg.a);
    } else if arg.Integer? {
      IntegerReads(f.tag, f.parsed.value.tag, arg.n);
    }
  }

  /** Cut to the member and cast, a number that the scan's type holds is the same unless it is too long. */
  lemma IntegerReads(scanned: Tag, read: Tag, n: int)
    requires TagsMix(scanned, read) && InRange(scanned, n)
    ensures (if IsUnsigned(read) then Signed(read, n) % MemberRange(read) else Signed(read, n)) == n
       <==> !(scanned != read && read.UInt? && n >= 0x1_0000_0000)
  {
  }

  /** %lu64 is stored in one member and read from another, but that is the same number. */
  lemma SixtyFourReadsRight(dims: seq<nat>, arg: Arg)
    ensures FormOf("%lu64", dims) == Form(ULong, Some(BASE_ULONGLONG), 0, true)
    ensures !Truncates(FormOf("%lu64", dims), arg)
  {
    var s := "%lu64";
    assert ScannedTag(s) == ULong;
    assert ParseScalar(s, 1, false) == Some((BASE_ULONGLONG, 5));
    assert ParseString(s, dims) == ParseAt(s, 0, 5, false, dims, 0, 0);
    assert LongWithLength(s);
  }

  /** %lu32 loses what is above four bytes: 4294967296 reads as 0. */
  lemma ThirtyTwoReadsWrong(dims: seq<nat>, mem: seq<Byte>, objs: Objs, more: Objs, v: Value)
    requires Walk(more, mem, BASE_UINT, v) == Taken(objs, mem, BASE_UINT, Integer(0x1_0000_0000))
    ensures Truncates(FormOf("%lu32", dims), Integer(0x1_0000_0000))
    ensures FormOf("%lu32", dims).parsed == Some(BASE_UINT) && ReadBack(more, mem, BASE_UINT, v) == Some(TInt(0))
  {
    FormOfThirtyTwo(dims);
  }

  lemma FormOfThirtyTwo(dims: seq<nat>)
    ensures FormOf("%lu32", dims) == Form(ULong, Some(BASE_UINT), 0, true)
  {
    var s := "%lu32";
    assert ScannedTag(s) == ULong;
    assert ParseScalar(s, 1, false) == Some((BASE_UINT, 5));
    assert ParseString(s, dims) == ParseAt(s, 0, 5, false, dims, 0, 0);
    assert LongWithLength(s);
  }
}
