/** The type-string parser of src/adiak.c: the brace matcher, the length specifiers, the recursive
    parser and the quick scan of the outermost type. A parse is specified by the function Parse
    and carried out by the method ParseTypestrHelper. */
module TypeStrings {
  import opened AdiakTypes
  import opened CHeap

  /** A C string: no character of it is the terminator. */
  predicate CString(s: string) {
    NUL !in s
  }

  /** The character at index i; index |s| holds the terminator, and no index beyond it is read. */
  function At(s: string, i: nat): char
    requires i <= |s|
  {
    if i < |s| then s[i] else NUL
  }

  predicate IsSpace(c: char) {
    c == ' ' || c == '\t' || c == '\n' || c == '\U{0B}' || c == '\U{0C}' || c == '\r'
  }

  predicate IsSeparator(c: char) {
    IsSpace(c) || c == ','
  }

  predicate IsOpener(c: char) {
    c == '[' || c == '{' || c == '(' || c == '<'
  }

  predicate IsCloser(c: char) {
    c == ']' || c == '}' || c == ')' || c == '>'
  }

  predicate IsDigit(c: char) {
    '0' <= c <= '9'
  }

  // ---------------------------------------------------------------- brace matching

  /** Openers minus closers, all four kinds of brace counted alike. */
  function Depth(w: string): int {
    if w == [] then 0
    else Depth(w[..|w| - 1]) + DepthChange(w[|w| - 1])
  }

  function DepthChange(c: char): int {
    if IsOpener(c) then 1 else if IsCloser(c) then -1 else 0
  }

  /** The brace opened at start is closed at k by the character c. */
  predicate Closes(s: string, c: char, start: nat, k: nat)
    requires start <= k < |s|
  {
    s[k] == c && Depth(s[start..k + 1]) == 0
  }

  /** e is where c first closes the brace opened at start, searching up to end. */
  predicate IsEndBrace(s: string, c: char, start: nat, end: nat, e: Option<nat>)
    requires start <= end <= |s|
  {
    match e
    case Some(e) => start <= e < end && Closes(s, c, start, e) && forall k :: start <= k < e ==> !Closes(s, c, start, k)
    case None => forall k :: start <= k < end ==> !Closes(s, c, start, k)
  }

  function EndBraceFrom(s: string, c: char, start: nat, cur: nat, end: nat): (e: Option<nat>)
    requires start <= cur <= end <= |s|
    ensures e.Some? ==> cur <= e.value < end && s[e.value] == c
    decreases end - cur
  {
    if cur == end then None
    else if Closes(s, c, start, cur) then Some(cur)
    else EndBraceFrom(s, c, start, cur + 1, end)
  }

  function EndBrace(s: string, c: char, start: nat, end: nat): (e: Option<nat>)
    requires start <= end <= |s|
    ensures e.Some? ==> start <= e.value < end && s[e.value] == c
  {
    EndBraceFrom(s, c, start, start, end)
  }

  /** EndBrace is the one answer that IsEndBrace accepts. */
  lemma EndBraceIsFirst(s: string, c: char, start: nat, end: nat, e: Option<nat>)
    requires start <= end <= |s|
    ensures IsEndBrace(s, c, start, end, e) <==> e == EndBrace(s, c, start, end)
  {
    EndBraceFromIsFirst(s, c, start, start, end);
    var f := EndBrace(s, c, start, end);
    if e.Some? && f.Some? && IsEndBrace(s, c, start, end, e) {
      assert !(e.value < f.value) && !(f.value < e.value);
    }
  }

  lemma {:induction false} EndBraceFromIsFirst(s: string, c: char, start: nat, cur: nat, end: nat)
    requires start <= cur <= end <= |s|
    requires forall k :: start <= k < cur ==> !Closes(s, c, start, k)
    ensures IsEndBrace(s, c, start, end, EndBraceFrom(s, c, start, cur, end))
    decreases end - cur
  {
    if cur < end && !Closes(s, c, start, cur) {
      EndBraceFromIsFirst(s, c, start, cur + 1, end);
    }
  }

  /** find_end_brace; None models -1. */
  method FindEndBrace(s: string, endchar: char, start: nat, end: nat) returns (e: Option<nat>)
    requires start <= end <= |s|
    ensures e == EndBrace(s, endchar, start, end)
  {
    var depth := 0;
    var cur := start;
    while cur < end
      invariant start <= cur <= end
      invariant depth == Depth(s[start..cur])
      invariant EndBraceFrom(s, endchar, start, cur, end) == EndBrace(s, endchar, start, end)
    {
      assert s[start..cur + 1][..cur - start] == s[start..cur];
      if s[cur] == '[' || s[cur] == '{' || s[cur] == '(' || s[cur] == '<' {
        depth := depth + 1;
      }
      if s[cur] == ']' || s[cur] == '}' || s[cur] == ')' || s[cur] == '>' {
        depth := depth - 1;
      }
      if depth == 0 && s[cur] == endchar {
        return Some(cur);
      }
      cur := cur + 1;
    }
    return None;
  }

  // ---------------------------------------------------------------- scalars

  /** parse_scalar_len_spec at position pos: the length (-1 on error) and the new position. */
  function ScalarLenSpec(s: string, pos: nat): (r: (int, nat))
    requires pos < |s| && CString(s)
    ensures pos <= r.1 < |s|
    ensures forall k :: pos < k <= r.1 ==> IsDigit(s[k])
    ensures !IsDigit(At(s, pos + 1)) ==> r == (0, pos)
    ensures r.0 in {-1, 0, 1, 2, 4, 8}
  {
    if At(s, pos + 1) == '8' then (1, pos + 1)
    else if At(s, pos + 1) == '1' && At(s, pos + 2) == '6' then (2, pos + 2)
    else if At(s, pos + 1) == '3' && At(s, pos + 2) == '2' then (4, pos + 2)
    else if At(s, pos + 1) == '6' && At(s, pos + 2) == '4' then (8, pos + 2)
    else if '0' <= At(s, pos + 1) <= '9' then (-1, pos)
    else (0, pos)
  }

  /** The static descriptor for a conversion letter, given the 'l' prefixes and the length. */
  function ScalarFor(letter: char, isLong: bool, isLongLong: bool, len: int, isReference: bool): (t: Option<DType>)
    ensures t.Some? ==> IsStatic(t.value) && IsLetter(letter)
    ensures t.Some? && IsText(t.value.tag) ==> t.value.isReference == isReference
  {
    if letter == 'd' || letter == 'u' then IntegerFor(letter, isLong, isLongLong, len)
    else if letter == 'i' || letter == 'f' then SizedFor(letter, len)
    else UnsizedFor(letter, isReference)
  }

  function IntegerFor(letter: char, isLong: bool, isLongLong: bool, len: int): (t: Option<DType>)
    ensures t.Some? ==> IsStatic(t.value) && !IsText(t.value.tag)
  {
    if letter == 'd' then Some(if isLong then (if isLongLong then BASE_LONGLONG else BASE_LONG) else BASE_INT)
    else if len == 0 then Some(if isLong then (if isLongLong then BASE_ULONGLONG else BASE_ULONG) else BASE_UINT)
    else if len == 1 then Some(BASE_U8)
    else if len == 2 then Some(BASE_U16)
    else if len == 4 then Some(BASE_UINT)
    else if len == 8 then Some(BASE_ULONGLONG)
    else None
  }

  function SizedFor(letter: char, len: int): (t: Option<DType>)
    ensures t.Some? ==> IsStatic(t.value) && !IsText(t.value.tag)
  {
    if letter == 'i' then
      if len == 0 || len == 4 then Some(BASE_INT)
      else if len == 1 then Some(BASE_I8)
      else if len == 2 then Some(BASE_I16)
      else if len == 8 then Some(BASE_LONGLONG)
      else None
    else
      if len == 0 || len == 8 then Some(BASE_DOUBLE)
      else if len == 4 then Some(BASE_FLOAT)
      else None
  }

  function UnsizedFor(letter: char, isReference: bool): (t: Option<DType>)
    ensures t.Some? ==> IsStatic(t.value) && IsLetter(letter)
    ensures t.Some? && IsText(t.value.tag) ==> t.value.isReference == isReference
  {
    match letter
    case 'D' => Some(BASE_DATE)
    case 't' => Some(BASE_TIMEVAL)
    case 'v' => Some(if isReference then BASE_VERSION_REF else BASE_VERSION)
    case 's' => Some(if isReference then BASE_STRING_REF else BASE_STRING)
    case 'r' => Some(if isReference then BASE_CATSTRING_REF else BASE_CATSTRING)
    case 'j' => Some(if isReference then BASE_JSONSTRING_REF else BASE_JSONSTRING)
    case 'p' => Some(if isReference then BASE_PATH_REF else BASE_PATH)
    case _ => None
  }

  predicate IsLetter(c: char) {
    'a' <= c <= 'z' || 'A' <= c <= 'Z'
  }

  /** Where the conversion letter stands: after at most two 'l'. */
  function LetterAt(s: string, cur: nat): (c: nat)
    requires cur <= |s|
    ensures cur <= c <= cur + 2 && c <= |s|
    ensures forall k :: cur <= k < c ==> s[k] == 'l'
  {
    if At(s, cur) != 'l' then cur
    else if At(s, cur + 1) != 'l' then cur + 1
    else cur + 2
  }

  /** The scalar specifier whose first character after '%' is at cur: its static descriptor and
      the position after it. */
  function ParseScalar(s: string, cur: nat, isReference: bool): (r: Option<(DType, nat)>)
    requires cur <= |s| && CString(s)
    ensures r.Some? ==> IsStatic(r.value.0) && cur < r.value.1 <= |s|
    ensures r.Some? && IsText(r.value.0.tag) ==> r.value.0.isReference == isReference
  {
    var c := LetterAt(s, cur);
    var letter := At(s, c);
    var (len, p) := if letter == 'u' || letter == 'i' || letter == 'f' then ScalarLenSpec(s, c) else (0, c);
    match ScalarFor(letter, c > cur, c > cur + 1, len, isReference)
    case None => None
    case Some(t) => Some((t, p + 1))
  }

  /** A scalar specifier does not run past a closing brace. */
  lemma ScalarStaysInside(s: string, cur: nat, isReference: bool, end: nat)
    requires cur <= end <= |s| && CString(s) && (end < |s| ==> IsCloser(s[end]))
    ensures var r := ParseScalar(s, cur, isReference); r.Some? ==> r.value.1 <= end
  {
    var c := LetterAt(s, cur);
    if end < |s| && end <= c {
      assert c == end;
    }
  }

  // ---------------------------------------------------------------- the parser

  function SkipSeparators(s: string, i: nat): (p: nat)
    requires i <= |s|
    ensures i <= p <= |s|
    ensures !IsSeparator(At(s, p))
    ensures forall k :: i <= k < p ==> IsSeparator(s[k])
    decreases |s| - i
  {
    if i < |s| && IsSeparator(s[i]) then SkipSeparators(s, i + 1) else i
  }

  /** A window the parser is given ends at the terminator or at the closing brace around it. */
  predicate Window(s: string, start: nat, end: nat) {
    && CString(s) && start <= end <= |s|
    && (end < |s| ==> IsCloser(s[end]))
  }

  /** Skipping separators and one '&' cannot leave a window. */
  lemma SkipStaysInside(s: string, start: nat, end: nat)
    requires Window(s, start, end)
    ensures var p := SkipSeparators(s, start);
            p <= end && (At(s, p) == '&' ==> p + 1 <= end)
  {
    var p := SkipSeparators(s, start);
    assert end < |s| ==> !IsSeparator(s[end]);
  }

  /** What one call of the parser does: the descriptor it returns (None models NULL), how far it
      has read the arguments, where it leaves *new_typestr_start, and how many of the blocks it
      allocated are neither part of the result nor freed. */
  datatype Parsed = Parsed(t: Option<DType>, ap: nat, next: nat, lost: nat)
  datatype ParsedKids = ParsedKids(ts: Option<seq<DType>>, ap: nat, lost: nat)

  /** va_arg for the argument at index i. A call that reads more arguments than it was passed is
      undefined in C; whatever it reads then can be taken as part of dims. */
  function Arg(dims: seq<nat>, i: nat): nat {
    if i < |dims| then dims[i] else 0
  }

  function MatchingCloser(c: char): char {
    if c == '{' then '}' else if c == '[' then ']' else if c == '<' then '>' else ')'
  }

  function BraceTag(c: char): Tag {
    if c == '{' then List else if c == '[' then Set else if c == '<' then Range else Tuple
  }

  /** A container node with n elements on the side of its reference flag. */
  function Container(tag: Tag, n: nat, isReference: bool, subtype: seq<DType>): DType {
    DType(tag, Categorical, if isReference then 0 else n, subtype, isReference, if isReference then n else 0, 0)
  }

  /** parse_typestr_helper on the window [start, end). The arguments of the call are dims,
      the one at index ap is the next, and next is the value *new_typestr_start has on entry. */
  function Parse(s: string, start: nat, end: nat, isReference: bool, dims: seq<nat>, ap: nat, next: nat): (r: Parsed)
    requires Window(s, start, end)
    ensures r.t.Some? ==> r.lost == 0 && (r.next == next || start < r.next <= end)
    decreases end - start, 2, 0
  {
    if start == end then Parsed(None, ap, next, 0) else
    var p := SkipSeparators(s, start);
    SkipStaysInside(s, start, end);
    if At(s, p) == '&' then ParseAt(s, p + 1, end, true, dims, ap, next)
    else ParseAt(s, p, end, isReference, dims, ap, next)
  }

  /** The part of parse_typestr_helper after the separators and the '&'. */
  function ParseAt(s: string, cur: nat, end: nat, isReference: bool, dims: seq<nat>, ap: nat, next: nat): (r: Parsed)
    requires Window(s, cur, end)
    ensures r.t.Some? ==> r.lost == 0 && (r.next == next || cur < r.next <= end)
    decreases end - cur, 1, 0
  {
    var c := At(s, cur);
    if IsOpener(c) then ParseBraced(s, cur, end, isReference, dims, ap, next)
    else if c == '%' then
      ScalarStaysInside(s, cur + 1, isReference, end);
      match ParseScalar(s, cur + 1, isReference)
      case None => Parsed(None, ap, next, 0)
      case Some((t, after)) => Parsed(Some(t), ap, after, 0)
    else if c == NUL then Parsed(Some(UNSET_NODE), ap, next, 0)
    else Parsed(None, ap, next, 0)
  }

  /** The part of parse_typestr_helper for a container that opens at cur. */
  function ParseBraced(s: string, cur: nat, end: nat, isReference: bool, dims: seq<nat>, ap: nat, next: nat)
    : (r: Parsed)
    requires Window(s, cur, end) && cur < end && IsOpener(s[cur])
    ensures r.t.Some? ==> r.lost == 0 && (r.next == next || cur < r.next <= end)
    decreases end - cur, 0, 0
  {
    match EndBrace(s, MatchingCloser(s[cur]), cur, end)
    case None => Parsed(None, ap, next, 1)
    case Some(e) =>
      var (ap', n) := if s[cur] == '<' then (ap, 2) else (ap + 1, Arg(dims, ap));
      var kids := ParseComponents(s, cur, e, isReference, dims, ap', n);
      if kids.ts.None? then Parsed(None, kids.ap, next, kids.lost)
      else Parsed(Some(Container(BraceTag(s[cur]), n, isReference, kids.ts.value)), kids.ap,
                  if s[cur] == '(' then next else e + 1, 0)
  }

  /** The components between the braces at cur and end: n for a tuple, one for the others. */
  function ParseComponents(s: string, cur: nat, end: nat, isReference: bool, dims: seq<nat>, ap: nat, n: nat)
    : (r: ParsedKids)
    requires Window(s, cur + 1, end) && end < |s|
    ensures r.ts.Some? ==> |r.ts.value| == (if s[cur] == '(' then n else 1) && r.lost == 0
    decreases end - cur - 1, 4, n
  {
    if s[cur] == '(' then ParseKids(s, cur + 1, end, isReference, dims, ap, n, []) else
    var sub := Parse(s, cur + 1, end, isReference, dims, ap, cur);
    if sub.t.None? then ParsedKids(None, sub.ap, sub.lost) else ParsedKids(Some([sub.t.value]), sub.ap, 0)
  }

  /** The loop over the n components of a tuple, from the one after those in done. When one fails,
      the components before it are freed, except for what freeing them loses. */
  function ParseKids(s: string, cur: nat, end: nat, isReference: bool, dims: seq<nat>, ap: nat, n: nat,
      done: seq<DType>): (r: ParsedKids)
    requires Window(s, cur, end) && |done| <= n
    ensures r.ts.Some? ==> |r.ts.value| == n && r.lost == 0
    decreases end - cur, 3, n - |done|
  {
    if |done| == n then ParsedKids(Some(done), ap, 0) else
    var kid := Parse(s, cur, end, isReference, dims, ap, cur);
    if kid.t.None? then ParsedKids(None, kid.ap, kid.lost + EmptyTuplesInFirst(done, |done|))
    else ParseKids(s, kid.next, end, isReference, dims, kid.ap, n, done + [kid.t.value])
  }

  // ---------------------------------------------------------------- soundness

  /** What is true of every descriptor the parser makes, given whether it was asked for a
      reference. */
  ghost predicate Sound(t: DType, isReference: bool) {
    && WellFormed(t) && Categorized(t)
    && (isReference && (IsContainer(t.tag) || IsText(t.tag)) ==> t.isReference)
  }

  ghost predicate AllSound(ts: seq<DType>, isReference: bool) {
    forall i :: 0 <= i < |ts| ==> Sound(ts[i], isReference)
  }

  lemma ContainerIsSound(tag: Tag, n: nat, isReference: bool, ts: seq<DType>)
    requires AllSound(ts, isReference)
    requires IsContainer(tag) && |ts| == (if tag.Tuple? then n else 1) && (tag.Range? ==> n == 2)
    ensures Sound(Container(tag, n, isReference, ts), isReference)
  {
  }

  /** Parser soundness: in any window, with any arguments, the parser gives up, or returns the unset
      node because the string ran out, or returns a well-formed descriptor whose value categories
      are those of its tags and which is a reference wherever the caller asked for one. */
  lemma {:induction false} ParseIsSound(s: string, start: nat, end: nat, isReference: bool, dims: seq<nat>, ap: nat,
      next: nat)
    requires Window(s, start, end)
    ensures var t := Parse(s, start, end, isReference, dims, ap, next).t;
            t.Some? ==> Sound(t.value, isReference) || (t.value == UNSET_NODE && end == |s|)
    decreases end - start, 2, 0
  {
    if start < end {
      var p := SkipSeparators(s, start);
      SkipStaysInside(s, start, end);
      var cur := if At(s, p) == '&' then p + 1 else p;
      if IsOpener(At(s, cur)) {
        BracedIsSound(s, cur, end, isReference || At(s, p) == '&', dims, ap, next);
      }
    }
  }

  lemma {:induction false} BracedIsSound(s: string, cur: nat, end: nat, isReference: bool, dims: seq<nat>, ap: nat,
      next: nat)
    requires Window(s, cur, end) && cur < end && IsOpener(s[cur])
    ensures var t := ParseBraced(s, cur, end, isReference, dims, ap, next).t;
            t.Some? ==> Sound(t.value, isReference)
    decreases end - cur, 0, 0
  {
    var e := EndBrace(s, MatchingCloser(s[cur]), cur, end);
    if e.Some? {
      var (ap', n) := if s[cur] == '<' then (ap, 2) else (ap + 1, Arg(dims, ap));
      if s[cur] == '(' {
        KidsAreSound(s, cur + 1, e.value, isReference, dims, ap', n, []);
      } else {
        ParseIsSound(s, cur + 1, e.value, isReference, dims, ap', cur);
      }
      var kids := ParseComponents(s, cur, e.value, isReference, dims, ap', n);
      if kids.ts.Some? {
        ContainerIsSound(BraceTag(s[cur]), n, isReference, kids.ts.value);
      }
    }
  }

  lemma {:induction false} KidsAreSound(s: string, cur: nat, end: nat, isReference: bool, dims: seq<nat>, ap: nat,
      n: nat, done: seq<DType>)
    requires Window(s, cur, end) && end < |s| && |done| <= n && AllSound(done, isReference)
    ensures var ts := ParseKids(s, cur, end, isReference, dims, ap, n, done).ts;
            ts.Some? ==> AllSound(ts.value, isReference)
    decreases end - cur, 3, n - |done|
  {
    if |done| < n {
      var kid := Parse(s, cur, end, isReference, dims, ap, cur);
      ParseIsSound(s, cur, end, isReference, dims, ap, cur);
      if kid.t.Some? {
        KidsAreSound(s, kid.next, end, isReference, dims, kid.ap, n, done + [kid.t.value]);
      }
    }
  }

  // ---------------------------------------------------------------- the parser as it runs

  /** What the parser does to the heap. On success the new blocks are exactly those of the result,
      and they follow one another from h0.next on; on failure they are exactly those in lost. */
  ghost predicate Allocates(h0: Heap, t: Option<DType>, lost: set<nat>, h: Heap) {
    match t
    case Some(t) => lost == {} && h0.GrowsTo(h) && h.next == h0.next + Span(t)
    case None => h0.Grows(lost, h)
  }

  ghost predicate AllocatesKids(h0: Heap, ts: Option<seq<DType>>, lost: set<nat>, h: Heap) {
    match ts
    case Some(ts) => lost == {} && h0.GrowsTo(h) && h.next == h0.next + SpanOfFirst(ts, |ts|)
    case None => h0.Grows(lost, h)
  }

  /** parse_typestr_helper. The va_list and *new_typestr_start are passed in and out. The blocks of
      the result start at h0.next. */
  method ParseTypestrHelper(s: string, start: nat, end: nat, isReference0: bool, dims: seq<nat>, ap0: nat, next0: nat,
      h0: Heap)
    returns (t: Option<DType>, ap: nat, next: nat, h: Heap, ghost lost: set<nat>)
    requires Window(s, start, end) && h0.Valid()
    ensures var r := Parse(s, start, end, isReference0, dims, ap0, next0); t == r.t && ap == r.ap && next == r.next
    ensures |lost| == Parse(s, start, end, isReference0, dims, ap0, next0).lost
    ensures Allocates(h0, t, lost, h)
    decreases end - start, 2, 0
  {
    t, ap, next, h, lost := None, ap0, next0, h0, {};
    var cur, isReference := start, isReference0;
    if start == end {
      return;
    }
    SkipStaysInside(s, start, end);
    while IsSpace(At(s, cur)) || At(s, cur) == ','
      invariant start <= cur <= |s|
      invariant SkipSeparators(s, cur) == SkipSeparators(s, start)
      decreases |s| - cur
    {
      cur := cur + 1;
    }
    if At(s, cur) == '&' {
      isReference := true;
      cur := cur + 1;
    }
    t, ap, next, h, lost := ParseToken(s, cur, end, isReference, dims, ap, next, h);
  }

  /** parse_typestr_helper from the switch on the character at cur on. */
  method ParseToken(s: string, cur: nat, end: nat, isReference: bool, dims: seq<nat>, ap0: nat, next0: nat, h0: Heap)
    returns (t: Option<DType>, ap: nat, next: nat, h: Heap, ghost lost: set<nat>)
    requires Window(s, cur, end) && h0.Valid()
    ensures var r := ParseAt(s, cur, end, isReference, dims, ap0, next0); t == r.t && ap == r.ap && next == r.next
    ensures |lost| == ParseAt(s, cur, end, isReference, dims, ap0, next0).lost
    ensures Allocates(h0, t, lost, h)
    decreases end - cur, 1, 0
  {
    t, ap, next, h, lost := None, ap0, next0, h0, {};
    if IsOpener(At(s, cur)) {
      t, ap, next, h, lost := ParseContainer(s, cur, end, isReference, dims, ap, next, h);
    } else if At(s, cur) == '%' {
      var scalar := ParseScalar(s, cur + 1, isReference);
      if scalar.Some? {
        t, next := Some(scalar.value.0), scalar.value.1;
      }
    } else if At(s, cur) == NUL {
      // The terminator counts as one of the opening braces that are looked for.
      t := Some(UNSET_NODE);
      h := h.Malloc(Raw);
    }
  }

  /** The branches of parse_typestr_helper for the four kinds of container. */
  method ParseContainer(s: string, cur: nat, end: nat, isReference: bool, dims: seq<nat>, ap0: nat, next0: nat,
      h0: Heap)
    returns (t: Option<DType>, ap: nat, next: nat, h: Heap, ghost lost: set<nat>)
    requires Window(s, cur, end) && cur < end && IsOpener(s[cur]) && h0.Valid()
    ensures var r := ParseBraced(s, cur, end, isReference, dims, ap0, next0); t == r.t && ap == r.ap && next == r.next
    ensures |lost| == ParseBraced(s, cur, end, isReference, dims, ap0, next0).lost
    ensures Allocates(h0, t, lost, h)
    decreases end - cur, 0, 0
  {
    t, ap, next, lost := None, ap0, next0, {};
    var node := h0.next;
    h := h0.Malloc(Raw);
    var endBrace := FindEndBrace(s, MatchingCloser(s[cur]), cur, end);
    if endBrace.None? {
      // The node is not freed: its tag is not set yet.
      lost := {node};
      return;
    }
    var n := 2;
    if s[cur] != '<' {
      n, ap := Arg(dims, ap), ap + 1;
    }
    var arr := h.next;
    h := h.Malloc(Raw);
    var ts;
    ghost var h1 := h;
    ts, ap, h, lost := ParseContainerComponents(s, cur, endBrace.value, isReference, dims, ap, n, h);
    if ts.None? {
      ContainerGivenUp(h0, node, h1, lost, h);
      h := h.Free(arr);
      h := h.Free(node);
    } else {
      ContainerMade(h0, h1, ts.value, h);
      t := Some(Container(BraceTag(s[cur]), n, isReference, ts.value));
      if s[cur] != '(' {
        next := endBrace.value + 1;
      }
    }
  }

  lemma ContainerGivenUp(h0: Heap, node: nat, h1: Heap, lost: set<nat>, h2: Heap)
    requires h0.Valid() && node == h0.next && h1 == h0.Malloc(Raw).Malloc(Raw) && h1.Grows(lost, h2)
    ensures node in h2.objs && node + 1 in h2.objs && h0.Grows(lost, h2.Free(node + 1).Free(node))
  {
  }

  lemma ContainerMade(h0: Heap, h1: Heap, ts: seq<DType>, h2: Heap)
    requires h0.Valid() && h1 == h0.Malloc(Raw).Malloc(Raw) && AllocatesKids(h1, Some(ts), {}, h2)
    ensures h0.GrowsTo(h2) && h2.next == h0.next + 2 + SpanOfFirst(ts, |ts|)
  {
  }

  /** The components of a container: a loop for a tuple, one recursive call for the others. */
  method ParseContainerComponents(s: string, cur: nat, end: nat, isReference: bool, dims: seq<nat>, ap0: nat, n: nat,
      h0: Heap)
    returns (ts: Option<seq<DType>>, ap: nat, h: Heap, ghost lost: set<nat>)
    requires Window(s, cur + 1, end) && end < |s| && h0.Valid()
    ensures var r := ParseComponents(s, cur, end, isReference, dims, ap0, n); ts == r.ts && ap == r.ap
    ensures |lost| == ParseComponents(s, cur, end, isReference, dims, ap0, n).lost
    ensures AllocatesKids(h0, ts, lost, h)
    decreases end - cur - 1, 4, n
  {
    if s[cur] == '(' {
      ts, ap, h, lost := ParseTupleComponents(s, cur + 1, end, isReference, dims, ap0, n, h0);
    } else {
      var sub, next;
      sub, ap, next, h, lost := ParseTypestrHelper(s, cur + 1, end, isReference, dims, ap0, cur, h0);
      ts := if sub.None? then None else Some([sub.value]);
    }
  }

  /** The loop over the components of a tuple, and on failure the freeing of those before. */
  method ParseTupleComponents(s: string, start: nat, end: nat, isReference: bool, dims: seq<nat>, ap0: nat, n: nat,
      h0: Heap)
    returns (r: Option<seq<DType>>, ap: nat, h: Heap, ghost lost: set<nat>)
    requires Window(s, start, end) && end < |s| && h0.Valid()
    ensures var k := ParseKids(s, start, end, isReference, dims, ap0, n, []); r == k.ts && ap == k.ap
    ensures |lost| == ParseKids(s, start, end, isReference, dims, ap0, n, []).lost
    ensures AllocatesKids(h0, r, lost, h)
    decreases end - start, 3, n
  {
    var ts: seq<DType> := [];
    ap, h, lost := ap0, h0, {};
    var cur, i := start, 0;
    ghost var whole := ParseKids(s, start, end, isReference, dims, ap0, n, []);
    while i < n
      invariant 0 <= i <= n && |ts| == i && start <= cur <= end && lost == {}
      invariant ParseKids(s, cur, end, isReference, dims, ap, n, ts) == whole
      invariant AllShaped(ts) && AllocatesKids(h0, Some(ts), {}, h)
    {
      ghost var h1 := h;
      var t;
      t, ap, cur, h, lost := ParseComponent(s, cur, end, isReference, dims, ap, h);
      if t.None? {
        h, lost := GiveUpTuple(ts, h0.next, h0, h1, lost, h);
        return None, ap, h, lost;
      }
      OneMoreKid(h0, ts, h1, t.value, h);
      ts := ts + [t.value];
      i := i + 1;
    }
    r := Some(ts);
  }

  /** One component of a tuple, parsed from where the one before it left *new_typestr_start. */
  method ParseComponent(s: string, cur: nat, end: nat, isReference: bool, dims: seq<nat>, ap0: nat, h0: Heap)
    returns (t: Option<DType>, ap: nat, next: nat, h: Heap, ghost lost: set<nat>)
    requires Window(s, cur, end) && end < |s| && h0.Valid()
    ensures var r := Parse(s, cur, end, isReference, dims, ap0, cur); t == r.t && ap == r.ap && next == r.next
    ensures |lost| == Parse(s, cur, end, isReference, dims, ap0, cur).lost
    ensures Allocates(h0, t, lost, h)
    ensures t.Some? ==> Shaped(t.value) && cur <= next <= end
    decreases end - cur, 2, 1
  {
    ParseIsSound(s, cur, end, isReference, dims, ap0, cur);
    t, ap, next, h, lost := ParseTypestrHelper(s, cur, end, isReference, dims, ap0, cur, h0);
  }

  /** The error exit of a tuple: the components parsed so far are freed. */
  method GiveUpTuple(ts: seq<DType>, base: nat, ghost h0: Heap, ghost h1: Heap, ghost lost0: set<nat>, h2: Heap)
    returns (h: Heap, ghost lost: set<nat>)
    requires base == h0.next && AllShaped(ts) && AllocatesKids(h0, Some(ts), {}, h1) && h1.Grows(lost0, h2)
    ensures |lost| == |lost0| + EmptyTuplesInFirst(ts, |ts|) && h0.Grows(lost, h)
  {
    h := FreeSubtypes(ts, base, h2);
    lost := LostAfterFailure(h0, ts, h1, lost0, h2, h);
  }

  /** Appending a descriptor changes nothing about the first n. */
  lemma {:induction false} FirstsAppend(ts: seq<DType>, t: DType, n: nat)
    requires n <= |ts|
    ensures EmptyTuplesInFirst(ts + [t], n) == EmptyTuplesInFirst(ts, n)
    ensures SpanOfFirst(ts + [t], n) == SpanOfFirst(ts, n)
    ensures n == |ts| ==> SpanOfFirst(ts + [t], n + 1) == SpanOfFirst(ts, n) + Span(t)
    ensures n == |ts| ==> EmptyTuplesInFirst(ts + [t], n + 1) == EmptyTuplesInFirst(ts, n) + EmptyTuples(t)
  {
    if n > 0 {
      FirstsAppend(ts, t, n - 1);
    }
  }

  ghost predicate AllShaped(ts: seq<DType>) {
    forall i :: 0 <= i < |ts| ==> Shaped(ts[i])
  }

  lemma OneMoreKid(h0: Heap, ts: seq<DType>, h1: Heap, t: DType, h2: Heap)
    requires AllocatesKids(h0, Some(ts), {}, h1) && Allocates(h1, Some(t), {}, h2) && AllShaped(ts) && Shaped(t)
    ensures AllocatesKids(h0, Some(ts + [t]), {}, h2) && AllShaped(ts + [t])
  {
    FirstsAppend(ts, t, |ts|);
  }

  lemma LostAfterFailure(h0: Heap, ts: seq<DType>, h1: Heap, lost0: set<nat>, h2: Heap, h3: Heap)
    returns (lost: set<nat>)
    requires AllShaped(ts)
    requires AllocatesKids(h0, Some(ts), {}, h1) && h1.Grows(lost0, h2)
    requires h3.Valid() && h2.LessBlocks(FreedInFirst(ts, |ts|, h0.next), h3)
    ensures |lost| == |lost0| + EmptyTuplesInFirst(ts, |ts|) && h0.Grows(lost, h3)
  {
    LostInFirstIsEmptyTuples(ts, |ts|, h0.next);
    var left := LostInFirst(ts, |ts|, h0.next);
    assert left !! lost0;
    lost := lost0 + left;
    assert |lost| == |lost0| + |left|;
  }

  /** parse_typestr */
  method ParseTypestr(s: string, dims: seq<nat>, h0: Heap) returns (t: Option<DType>, h: Heap, ghost lost: set<nat>)
    requires CString(s) && h0.Valid()
    ensures t == ParseString(s, dims).t
    ensures |lost| == ParseString(s, dims).lost
    ensures Allocates(h0, t, lost, h)
    ensures t.Some? ==> t.value == UNSET_NODE || Sound(t.value, false)
  {
    ParseIsSound(s, 0, |s|, false, dims, 0, 0);
    var ap, end;
    t, ap, end, h, lost := ParseTypestrHelper(s, 0, |s|, false, dims, 0, 0, h0);
  }

  function ParseString(s: string, dims: seq<nat>): Parsed
    requires CString(s)
  {
    Parse(s, 0, |s|, false, dims, 0, 0)
  }
}
