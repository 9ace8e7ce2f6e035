/** Type strings that say everything about a type: an '&' where a reference starts, the length of every number, the
    brackets of the documentation. Parsed with its element counts such a string gives exactly the type, unless a tuple
    is parsed again. */
module FullTexts {
  import opened AdiakTypes
  import opened TypeStrings
  import opened RoundTrip

  // ---------------------------------------------------------------- the text

  /** The specifier of a scalar, with its length. */
  function Specifier(t: DType): (s: string)
    ensures s != "" && s[0] == '%'
  {
    match t.tag
    case Int => if t.numBytes == 1 then "%i8" else if t.numBytes == 2 then "%i16" else "%i32"
    case UInt => if t.numBytes == 1 then "%u8" else if t.numBytes == 2 then "%u16" else "%u32"
    case Long => "%ld"
    case ULong => "%lu"
    case LongLong => "%i64"
    case ULongLong => "%u64"
    case Double => if t.numBytes == 4 then "%f32" else "%f64"
    case Date => "%D"
    case Timeval => "%t"
    case Version => "%v"
    case String => "%s"
    case CatString => "%r"
    case JsonString => "%j"
    case _ => "%p"
  }

  function Opener(tag: Tag): string {
    if tag.List? then "{" else if tag.Set? then "[" else if tag.Range? then "<" else "("
  }

  function Closer(tag: Tag): string {
    if tag.List? then "}" else if tag.Set? then "]" else if tag.Range? then ">" else ")"
  }

  /** The '&' before a node that is a reference, unless it is inside one already. */
  function Amp(t: DType, inside: bool): string {
    if t.isReference && !inside then "&" else ""
  }

  function Full(t: DType, inside: bool): (s: string)
    ensures s != ""
    decreases t, |t.subtype| + 2
  {
    Amp(t, inside) + Bare(t, inside || t.isReference)
  }

  /** Without the '&'. */
  function Bare(t: DType, inside: bool): (s: string)
    ensures s != ""
    decreases t, |t.subtype| + 1
  {
    if IsContainer(t.tag) then Opener(t.tag) + FullFrom(t.subtype, 0, inside) + Closer(t.tag) else Specifier(t)
  }

  function FullFrom(ts: seq<DType>, i: nat, inside: bool): string
    requires i <= |ts|
    decreases ts, |ts| - i
  {
    if i == |ts| then "" else Full(ts[i], inside) + Comma(ts, i) + FullFrom(ts, i + 1, inside)
  }

  // ---------------------------------------------------------------- brackets

  lemma FlatSpecifier(t: DType)
    ensures Depth(Specifier(t)) == 0 && NeverNegative(Specifier(t))
  {
    FlatTextDepth(Specifier(t));
  }

  lemma {:induction false} DepthOfFull(t: DType, inside: bool)
    ensures Depth(Full(t, inside)) == 0 && NeverNegative(Full(t, inside))
    decreases t, |t.subtype| + 2
  {
    DepthOfBare(t, inside || t.isReference);
    FlatTextDepth(Amp(t, inside));
    DepthOfConcat(Amp(t, inside), Bare(t, inside || t.isReference));
    NeverNegativeConcat(Amp(t, inside), Bare(t, inside || t.isReference));
  }

  lemma {:induction false} DepthOfBare(t: DType, inside: bool)
    ensures Depth(Bare(t, inside)) == 0 && NeverNegative(Bare(t, inside))
    decreases t, |t.subtype| + 1
  {
    if IsContainer(t.tag) {
      DepthInBrackets(t, inside);
      var w := Bare(t, inside);
      forall k | 0 <= k <= |w| ensures Depth(w[..k]) >= 0 {
        assert w[..|w|] == w;
      }
    } else {
      FlatSpecifier(t);
    }
  }

  lemma {:induction false} DepthOfFullFrom(ts: seq<DType>, i: nat, inside: bool)
    requires i <= |ts|
    ensures Depth(FullFrom(ts, i, inside)) == 0 && NeverNegative(FullFrom(ts, i, inside))
    decreases ts, |ts| - i
  {
    if i < |ts| {
      DepthOfFull(ts[i], inside);
      DepthOfFullFrom(ts, i + 1, inside);
      DepthOfPiece(Full(ts[i], inside), Comma(ts, i), FullFrom(ts, i + 1, inside));
    }
  }

  lemma {:induction false} DepthInBrackets(t: DType, inside: bool)
    requires IsContainer(t.tag)
    ensures Depth(Bare(t, inside)) == 0
    ensures forall k :: 0 < k < |Bare(t, inside)| ==> Depth(Bare(t, inside)[..k]) >= 1
    decreases t, |t.subtype|
  {
    DepthOfFullFrom(t.subtype, 0, inside);
    Bracketed(Opener(t.tag), FullFrom(t.subtype, 0, inside), Closer(t.tag));
  }

  lemma Bracketed(open: string, body: string, close: string)
    requires |open| == 1 == |close| && IsOpener(open[0]) && IsCloser(close[0])
    requires Depth(body) == 0 && NeverNegative(body)
    ensures Depth(open + body + close) == 0
    ensures forall k :: 0 < k < |open + body + close| ==> Depth((open + body + close)[..k]) >= 1
  {
    var w := open + body + close;
    OneBrace(open);
    OneBrace(close);
    DepthOfConcat(open, body);
    DepthOfConcat(open + body, close);
    forall k | 0 < k < |w| ensures Depth(w[..k]) >= 1 {
      assert w[..k] == open + body[..k - 1];
      DepthOfConcat(open, body[..k - 1]);
    }
  }

  /** The bracket that opens a container is matched with the one that closes it. */
  lemma EndOfBare(s: string, p: nat, end: nat, t: DType, inside: bool)
    requires p + |Bare(t, inside)| <= end <= |s| && s[p..p + |Bare(t, inside)|] == Bare(t, inside) && IsContainer(t.tag)
    ensures var e := p + |Bare(t, inside)| - 1;
            && p < e && IsOpener(s[p]) && BraceTag(s[p]) == t.tag && IsCloser(s[e])
            && EndBrace(s, MatchingCloser(s[p]), p, end) == Some(e)
            && s[p + 1..e] == FullFrom(t.subtype, 0, inside)
  {
    var open, body, close := Opener(t.tag), FullFrom(t.subtype, 0, inside), Closer(t.tag);
    var e := p + |Bare(t, inside)| - 1;
    PartsStand(s, p, e + 1, open, body, close);
    assert s[p] == open[0] && s[e] == close[0] by {
      assert s[p..p + 1][0] == s[p] && s[e..e + 1][0] == s[e];
    }
    BracketsMatch(t.tag);
    EndOfBrackets(s, p, e, end, Bare(t, inside)) by {
      DepthInBrackets(t, inside);
    }
  }

  lemma BracketsMatch(tag: Tag)
    requires IsContainer(tag)
    ensures IsOpener(Opener(tag)[0]) && BraceTag(Opener(tag)[0]) == tag
    ensures IsCloser(Closer(tag)[0]) && MatchingCloser(Opener(tag)[0]) == Closer(tag)[0]
  {
  }

  /** The bracket at p is still open after k. */
  predicate StillOpen(s: string, p: nat, k: nat) {
    p <= k < |s| && Depth(s[p..k + 1]) >= 1
  }

  lemma EndOfBrackets(s: string, p: nat, e: nat, end: nat, w: string)
    requires p < e < end <= |s| && s[p..e + 1] == w && Depth(w) == 0
    requires forall k :: 0 < k < |w| ==> Depth(w[..k]) >= 1
    ensures s[e] == MatchingCloser(s[p]) ==> EndBrace(s, MatchingCloser(s[p]), p, end) == Some(e)
  {
    forall k | p <= k < e ensures StillOpen(s, p, k) {
      SameSlice(s, p, e + 1, w, k + 1);
    }
    if s[e] == MatchingCloser(s[p]) {
      EndWhenBalanced(s, p, end, e);
    }
  }

  lemma EndWhenBalanced(s: string, p: nat, end: nat, e: nat)
    requires p < e < end <= |s| && s[e] == MatchingCloser(s[p]) && Depth(s[p..e + 1]) == 0
    requires forall k :: p <= k < e ==> StillOpen(s, p, k)
    ensures EndBrace(s, MatchingCloser(s[p]), p, end) == Some(e)
  {
    forall k | p <= k < e ensures !Closes(s, MatchingCloser(s[p]), p, k) {
      assert StillOpen(s, p, k);
    }
    EndBraceIsFirst(s, MatchingCloser(s[p]), p, end, Some(e));
  }

  lemma SameSlice(s: string, p: nat, e: nat, w: string, k: nat)
    requires p <= k <= e <= |s| && s[p..e] == w
    ensures s[p..k] == w[..k - p]
  {
    assert s[p..k] == s[p..e][..k - p];
  }

  // ---------------------------------------------------------------- starting on a text

  lemma FullIsAmpBare(t: DType, inside: bool)
    ensures Full(t, inside) == Amp(t, inside) + Bare(t, inside || t.isReference)
    ensures Bare(t, inside || t.isReference)[0] == if IsContainer(t.tag) then Opener(t.tag)[0] else '%'
    ensures !IsSeparator(Full(t, inside)[0]) && (Full(t, inside)[0] == '&' <==> Amp(t, inside) == "&")
    ensures Bare(t, inside || t.isReference)[0] != '&'
  {
  }

  /** Where a text stands the parser skips nothing, and takes the '&' for a reference. */
  lemma StartOfFull(s: string, p: nat, end: nat, t: DType, inside: bool, dims: seq<nat>, ap: nat, next: nat)
    requires Window(s, p, end) && p + |Full(t, inside)| <= end && StandsAt(s, p, Full(t, inside))
    ensures SkipSeparators(s, p) == p
    ensures var b := p + |Amp(t, inside)|;
            && StandsAt(s, b, Bare(t, inside || t.isReference)) &&
               b + |Bare(t, inside || t.isReference)| == p + |Full(t, inside)|
            && Window(s, b, end) && s[b] == Bare(t, inside || t.isReference)[0] && s[b] != '&'
            && (Amp(t, inside) == "&" <==> s[p] == '&')
  {
    FullIsAmpBare(t, inside);
    var w, a := Full(t, inside), Amp(t, inside);
    var b := p + |a|;
    assert s[p..p + |w|][0] == w[0] && s[p] == w[0];
    assert s[b..p + |w|] == s[p..p + |w|][|a|..] == Bare(t, inside || t.isReference);
    assert s[b..p + |w|][0] == s[b];
  }

  lemma ParseFromStart(s: string, start: nat, p: nat, end: nat, t: DType, inside: bool, dims: seq<nat>, ap: nat,
      next: nat)
    requires Window(s, start, end) && start <= p == SkipSeparators(s, start) && p + |Full(t, inside)| <= end
    requires StandsAt(s, p, Full(t, inside))
    ensures Window(s, p + |Amp(t, inside)|, end)
    ensures Parse(s, start, end, inside, dims, ap, next)
         == ParseAt(s, p + |Amp(t, inside)|, end, inside || Amp(t, inside) == "&", dims, ap, next)
  {
    AmpStands(s, p, end, t, inside, dims, ap, next);
    ParseSkips(s, start, p, end, inside, dims, ap, next);
  }

  lemma AmpStands(s: string, p: nat, end: nat, t: DType, inside: bool, dims: seq<nat>, ap: nat, next: nat)
    requires Window(s, p, end) && p + |Full(t, inside)| <= end && StandsAt(s, p, Full(t, inside))
    ensures p + |Amp(t, inside)| <= end && p < end
    ensures Amp(t, inside) == if s[p] == '&' then "&" else ""
  {
    StartOfFull(s, p, end, t, inside, dims, ap, next);
  }

  lemma ParseSkips(s: string, start: nat, p: nat, end: nat, inside: bool, dims: seq<nat>, ap: nat, next: nat)
    requires Window(s, start, end) && start <= p == SkipSeparators(s, start) && p < end
    ensures Parse(s, start, end, inside, dims, ap, next)
         == if s[p] == '&' then ParseAt(s, p + 1, end, true, dims, ap, next)
            else ParseAt(s, p, end, inside, dims, ap, next)
  {
  }

  // ---------------------------------------------------------------- numbers and strings

  lemma SpecifierReads(s: string, p: nat, t: DType, inside: bool)
    requires CString(s) && StandsAt(s, p, Specifier(t)) && IsStatic(t) && (IsText(t.tag) ==> t.isReference == inside)
    ensures s[p] == '%' && ParseScalar(s, p + 1, inside) == Some((t, p + |Specifier(t)|))
  {
    SpecifierStands(s, p, Specifier(t));
    StaticIsOne(t);
    if t.tag in {Int, UInt, LongLong, ULongLong, Double} {
      LengthReads(s, p, t, inside);
    } else {
      LetterReads(s, p, t, inside);
    }
  }

  /** The characters of a specifier with a length, and no digit after it. */
  predicate CharactersAt(s: string, p: nat, w: string) {
    && p + |w| <= |s| && !IsDigit(At(s, p + |w|))
    && forall k :: 0 <= k < |w| ==> At(s, p + k) == w[k]
  }

  lemma LengthReads(s: string, p: nat, t: DType, inside: bool)
    requires CString(s) && CharactersAt(s, p, Specifier(t)) && IsStatic(t)
    requires t.tag in {Int, UInt, LongLong, ULongLong, Double}
    ensures s[p] == '%' && ParseScalar(s, p + 1, inside) == Some((t, p + |Specifier(t)|))
  {
    var w := Specifier(t);
    assert At(s, p) == '%' && At(s, p + 1) == w[1] && At(s, p + 2) == w[2];
    assert |w| == 4 ==> At(s, p + 3) == w[3];
    assert LetterAt(s, p + 1) == p + 1;
    var len := if |w| == 3 then 1 else if w[2] == '1' then 2 else if w[2] == '3' then 4 else 8;
    assert ScalarLenSpec(s, p + 1) == (len, p + |w| - 1);
    StaticIsOne(t);
  }

  lemma LetterReads(s: string, p: nat, t: DType, inside: bool)
    requires CString(s) && CharactersAt(s, p, Specifier(t)) && IsStatic(t)
    requires t.tag !in {Int, UInt, LongLong, ULongLong, Double} && (IsText(t.tag) ==> t.isReference == inside)
    ensures s[p] == '%' && ParseScalar(s, p + 1, inside) == Some((t, p + |Specifier(t)|))
  {
    var w := Specifier(t);
    assert At(s, p) == '%' && At(s, p + 1) == w[1];
    assert |w| == 3 ==> At(s, p + 2) == w[2];
    assert LetterAt(s, p + 1) == p + |w| - 1;
    StaticIsOne(t);
  }

  lemma SpecifierStands(s: string, p: nat, w: string)
    requires StandsAt(s, p, w)
    ensures forall k :: 0 <= k < |w| ==> At(s, p + k) == w[k]
  {
    forall k | 0 <= k < |w| ensures At(s, p + k) == w[k] {
      assert s[p..p + |w|][k] == s[p + k];
    }
  }

  /** A static type is settled by its tag, its size and its reference flag. */
  lemma StaticIsOne(t: DType)
    requires IsStatic(t)
    ensures t == DType(t.tag, NumericalFromType(t.tag), 0, [], t.isReference, 0, t.numBytes)
  {
  }

  // ---------------------------------------------------------------- types that can be written

  /** What parsing can give: the category of each node is that of its tag, and a container has no size. */
  predicate Ordinary(t: DType) {
    && WellFormed(t)
    && (IsContainer(t.tag) ==> t.numerical == Categorical && t.numBytes == 0)
    && forall i :: 0 <= i < |t.subtype| ==> Ordinary(t.subtype[i])
  }

  /** The flag that the parser has at t when it is inside a reference or not. */
  predicate Placed(t: DType, inside: bool) {
    inside && (IsContainer(t.tag) || IsText(t.tag)) ==> t.isReference
  }

  /** Parsing the text of a with the counts of b gives b. As for the printed text, the parser stays at a tuple that
      is a component of a tuple. */
  predicate Writes(a: DType, b: DType)
    decreases a, b, 0
  {
    && a.tag == b.tag && a.isReference == b.isReference && a.numBytes == b.numBytes
    && (IsContainer(a.tag) ==> WritesFrom(a.subtype, 0, b.subtype, 0))
  }

  predicate WritesFrom(xs: seq<DType>, i: nat, ys: seq<DType>, j: nat)
    requires i <= |xs| && j <= |ys|
    decreases xs, ys, |ys| - j
  {
    j == |ys| || (i < |xs| && Writes(xs[i], ys[j]) && WritesFrom(xs, if xs[i].tag.Tuple? then i else i + 1, ys, j + 1))
  }

  // ---------------------------------------------------------------- parsing

  /** The parse of the text of a that stands at p gives b. */
  predicate Gives(a: DType, b: DType, inside: bool, p: nat, ap: nat, next: nat, r: Parsed) {
    r == Parsed(Some(b), ap + |Counts(b)|, if a.tag.Tuple? then next else p + |Full(a, inside)|, 0)
  }

  /** The text of t without its '&' stands at q. */
  ghost predicate BareStands(s: string, q: nat, end: nat, t: DType, inside: bool) {
    Window(s, q, end) && q + |Bare(t, inside)| <= end && StandsAt(s, q, Bare(t, inside))
  }

  /** The text of a stands at p, and the counts of b are next. */
  ghost predicate FullStands(s: string, start: nat, p: nat, end: nat, a: DType, b: DType, inside: bool,
      dims: seq<nat>, ap: nat)
  {
    && Window(s, start, end) && start <= p == SkipSeparators(s, start) && p + |Full(a, inside)| <= end
    && StandsAt(s, p, Full(a, inside)) && Ordinary(a) && Ordinary(b) && Placed(a, inside)
    && ArgsAt(dims, ap, Counts(b))
  }

  /** What is needed to parse the text of a at p as b. */
  ghost predicate FullReady(s: string, start: nat, p: nat, end: nat, a: DType, b: DType, inside: bool, dims: seq<nat>,
      ap: nat)
  {
    FullStands(s, start, p, end, a, b, inside, dims, ap) && Writes(a, b)
  }

  lemma {:induction false} FullGives(s: string, start: nat, p: nat, end: nat, a: DType, b: DType, inside: bool,
      dims: seq<nat>, ap: nat, next: nat)
    requires FullReady(s, start, p, end, a, b, inside, dims, ap)
    ensures Gives(a, b, inside, p, ap, next, Parse(s, start, end, inside, dims, ap, next))
    decreases a, 3
  {
    var q, now := p + |Amp(a, inside)|, inside || a.isReference;
    ParseIsOfBare(s, start, p, end, a, inside, dims, ap, next);
    AnyBareGives(s, q, end, a, b, now, dims, ap, next);
    GivenByBare(a, b, inside, p, ap, next, ParseAt(s, q, end, now, dims, ap, next));
  }

  lemma {:induction false} AnyBareGives(s: string, q: nat, end: nat, a: DType, b: DType, inside: bool, dims: seq<nat>,
      ap: nat, next: nat)
    requires BareStands(s, q, end, a, inside) && Ordinary(a) && Ordinary(b) && Writes(a, b) &&
        ArgsAt(dims, ap, Counts(b))
    requires IsContainer(a.tag) || IsText(a.tag) ==> a.isReference == inside
    ensures BareGivesAt(a, b, inside, q, ap, next, ParseAt(s, q, end, inside, dims, ap, next))
    decreases a, 2, 1
  {
    if IsContainer(a.tag) {
      BareGives(s, q, end, a, b, inside, dims, ap, next);
    } else {
      StaticOrdinary(a, b);
      ScalarGives(s, q, end, a, b, inside, dims, ap, next);
    }
  }

  lemma ParseIsOfBare(s: string, start: nat, p: nat, end: nat, a: DType, inside: bool, dims: seq<nat>, ap: nat,
      next: nat)
    requires Window(s, start, end) && start <= p == SkipSeparators(s, start) && p + |Full(a, inside)| <= end
    requires StandsAt(s, p, Full(a, inside)) && Ordinary(a) && Placed(a, inside)
    ensures var q, now := p + |Amp(a, inside)|, inside || a.isReference;
            && BareStands(s, q, end, a, now)
            && Parse(s, start, end, inside, dims, ap, next) == ParseAt(s, q, end, now, dims, ap, next)
    ensures IsContainer(a.tag) || IsText(a.tag) ==> a.isReference == (inside || a.isReference)
  {
    StartOfFull(s, p, end, a, inside, dims, ap, next);
    ParseFromStart(s, start, p, end, a, inside, dims, ap, next);
  }

  lemma GivenByBare(a: DType, b: DType, inside: bool, p: nat, ap: nat, next: nat, r: Parsed)
    requires BareGivesAt(a, b, inside || a.isReference, p + |Amp(a, inside)|, ap, next, r)
    ensures Gives(a, b, inside, p, ap, next, r)
  {
    assert |Full(a, inside)| == |Amp(a, inside)| + |Bare(a, inside || a.isReference)|;
  }

  predicate BareGivesAt(a: DType, b: DType, inside: bool, q: nat, ap: nat, next: nat, r: Parsed) {
    r == Parsed(Some(b), ap + |Counts(b)|, if a.tag.Tuple? then next else q + |Bare(a, inside)|, 0)
  }

  lemma StaticOrdinary(a: DType, b: DType)
    requires Ordinary(a) && Ordinary(b) && Writes(a, b) && !IsContainer(a.tag)
    ensures IsStatic(a) && a == b && Counts(b) == []
  {
    StaticIsOne(a);
    StaticIsOne(b);
  }

  lemma ScalarGives(s: string, q: nat, end: nat, a: DType, b: DType, inside: bool, dims: seq<nat>, ap: nat, next: nat)
    requires BareStands(s, q, end, a, inside) && IsStatic(a) && a == b && Counts(b) == []
    requires IsText(a.tag) ==> a.isReference == inside
    ensures BareGivesAt(a, b, inside, q, ap, next, ParseAt(s, q, end, inside, dims, ap, next))
  {
    SpecifierReads(s, q, a, inside);
    ScalarAt(s, q, end, inside, dims, ap, next, a, q + |Specifier(a)|);
  }

  lemma ScalarAt(s: string, q: nat, end: nat, inside: bool, dims: seq<nat>, ap: nat, next: nat, t: DType, after: nat)
    requires Window(s, q, end) && q < |s| && s[q] == '%' && ParseScalar(s, q + 1, inside) == Some((t, after))
    ensures ParseAt(s, q, end, inside, dims, ap, next) == Parsed(Some(t), ap, after, 0)
  {
  }

  /** What stands between the brackets at q and e, and what it should give. */
  ghost predicate InnerReady(s: string, q: nat, e: nat, a: DType, b: DType, inside: bool, dims: seq<nat>, ap: nat) {
    && Window(s, q + 1, e) && e < |s| && IsCloser(s[e]) && s[q + 1..e] == FullFrom(a.subtype, 0, inside)
    && IsContainer(a.tag) && IsOpener(s[q]) && BraceTag(s[q]) == a.tag && inside == a.isReference
    && Ordinary(a) && Ordinary(b) && Writes(a, b) && ArgsAt(dims, ap, CountsFrom(b.subtype, 0))
    && (!b.tag.Tuple? ==> Counts(b.subtype[0]) == CountsFrom(b.subtype, 0))
  }

  /** The brackets around it. */
  ghost predicate OuterReady(s: string, q: nat, e: nat, end: nat, b: DType, inside: bool, dims: seq<nat>, ap: nat) {
    && Window(s, q, end) && q < e < end && IsOpener(s[q]) && IsCloser(s[e])
    && BraceTag(s[q]) == b.tag && IsContainer(b.tag) && Ordinary(b) && b.isReference == inside
    && EndBrace(s, MatchingCloser(s[q]), q, end) == Some(e)
    && (!b.tag.Range? ==> Arg(dims, ap) == NumSubvals(b))
    && AfterNode(b, ap) + |CountsFrom(b.subtype, 0)| == ap + |Counts(b)|
  }

  /** The argument after the count of the node itself. */
  function AfterNode(b: DType, ap: nat): nat {
    if b.tag.Range? then ap else ap + 1
  }

  lemma {:induction false} BareGives(s: string, q: nat, end: nat, a: DType, b: DType, inside: bool, dims: seq<nat>,
      ap: nat, next: nat)
    requires BareStands(s, q, end, a, inside)
    requires IsContainer(a.tag) && Ordinary(a) && Ordinary(b) && Writes(a, b) && inside == a.isReference
    requires ArgsAt(dims, ap, Counts(b))
    ensures BareGivesAt(a, b, inside, q, ap, next, ParseAt(s, q, end, inside, dims, ap, next))
    decreases a, 2, 0
  {
    var e := q + |Bare(a, inside)| - 1;
    BareIsReady(s, q, end, a, b, inside, dims, ap);
    InnerGives(s, q, e, a, b, inside, dims, AfterNode(b, ap));
    WholeGives(s, q, e, end, a, b, inside, dims, ap, next);
  }

  lemma BareIsReady(s: string, q: nat, end: nat, a: DType, b: DType, inside: bool, dims: seq<nat>, ap: nat)
    requires BareStands(s, q, end, a, inside)
    requires IsContainer(a.tag) && Ordinary(a) && Ordinary(b) && Writes(a, b) && inside == a.isReference
    requires ArgsAt(dims, ap, Counts(b))
    ensures var e := q + |Bare(a, inside)| - 1;
            e >= 0 && InnerReady(s, q, e, a, b, inside, dims, AfterNode(b, ap))
            && OuterReady(s, q, e, end, b, inside, dims, ap)
  {
    EndOfBare(s, q, end, a, inside);
    CountsInside(b, dims, ap);
  }

  lemma {:induction false} InnerGives(s: string, q: nat, e: nat, a: DType, b: DType, inside: bool, dims: seq<nat>,
      ap: nat)
    requires InnerReady(s, q, e, a, b, inside, dims, ap)
    ensures InsideGives(s, q, e, b, inside, dims, ap)
    decreases a, 1, 1
  {
    if a.tag.Tuple? {
      TupleGives(s, q, e, a, b, inside, dims, ap);
    } else {
      OneGives(s, q, e, a, b, inside, dims, ap);
    }
  }

  /** The counts of a container: its own, unless it is a range, and those of its subtypes. */
  lemma CountsInside(b: DType, dims: seq<nat>, ap: nat)
    requires Ordinary(b) && IsContainer(b.tag) && ArgsAt(dims, ap, Counts(b))
    ensures !b.tag.Range? ==> Arg(dims, ap) == NumSubvals(b)
    ensures var ap' := if b.tag.Range? then ap else ap + 1;
            && ArgsAt(dims, ap', CountsFrom(b.subtype, 0)) && ap' + |CountsFrom(b.subtype, 0)| == ap + |Counts(b)|
    ensures !b.tag.Tuple? ==> Counts(b.subtype[0]) == CountsFrom(b.subtype, 0)
  {
    if b.tag.Range? {
      assert Counts(b) == [] + CountsFrom(b.subtype, 0) == CountsFrom(b.subtype, 0);
    } else {
      CountsAfterNode(b, dims, ap);
    }
    if !b.tag.Tuple? {
      assert CountsFrom(b.subtype, 1) == [];
      assert CountsFrom(b.subtype, 0) == Counts(b.subtype[0]) + [];
    }
  }

  /** What is between the brackets gives the subtypes of b. */
  predicate InsideGives(s: string, q: nat, e: nat, b: DType, inside: bool, dims: seq<nat>, ap: nat)
    requires Window(s, q + 1, e) && e < |s|
  {
    ParseComponents(s, q, e, inside, dims, ap, NumSubvals(b))
    == ParsedKids(Some(b.subtype), ap + |CountsFrom(b.subtype, 0)|, 0)
  }

  lemma WholeGives(s: string, q: nat, e: nat, end: nat, a: DType, b: DType, inside: bool, dims: seq<nat>, ap: nat,
      next: nat)
    requires OuterReady(s, q, e, end, b, inside, dims, ap) && a.tag == b.tag && e + 1 == q + |Bare(a, inside)|
    requires Window(s, q + 1, e) && InsideGives(s, q, e, b, inside, dims, AfterNode(b, ap))
    ensures BareGivesAt(a, b, inside, q, ap, next, ParseAt(s, q, end, inside, dims, ap, next))
  {
    OrdinaryContainer(b);
    BracedIs(s, q, e, end, inside, dims, ap, next, AfterNode(b, ap), NumSubvals(b), b.subtype, ap + |Counts(b)|);
  }

  lemma OrdinaryContainer(b: DType)
    requires Ordinary(b) && IsContainer(b.tag)
    ensures b == Container(b.tag, NumSubvals(b), b.isReference, b.subtype) && (b.tag.Range? ==> NumSubvals(b) == 2)
  {
  }

  /** A braced text, given what is inside. */
  lemma BracedIs(s: string, q: nat, e: nat, end: nat, inside: bool, dims: seq<nat>, ap: nat, next: nat, ap1: nat,
      n: nat, ts: seq<DType>, ap2: nat)
    requires Window(s, q, end) && q < e < end && IsOpener(s[q]) && Window(s, q + 1, e)
    requires EndBrace(s, MatchingCloser(s[q]), q, end) == Some(e)
    requires if s[q] == '<' then ap1 == ap && n == 2 else ap1 == ap + 1 && n == Arg(dims, ap)
    requires ParseComponents(s, q, e, inside, dims, ap1, n) == ParsedKids(Some(ts), ap2, 0)
    ensures ParseAt(s, q, end, inside, dims, ap, next)
         == Parsed(Some(Container(BraceTag(s[q]), n, inside, ts)), ap2, if s[q] == '(' then next else e + 1, 0)
  {
    assert ParseAt(s, q, end, inside, dims, ap, next) == ParseBraced(s, q, end, inside, dims, ap, next);
  }

  lemma {:induction false} OneGives(s: string, q: nat, e: nat, a: DType, b: DType, inside: bool, dims: seq<nat>,
      ap: nat)
    requires InnerReady(s, q, e, a, b, inside, dims, ap) && !a.tag.Tuple?
    ensures InsideGives(s, q, e, b, inside, dims, ap)
    decreases a, 1, 0
  {
    OneIsReady(s, q, e, a, b, inside, dims, ap);
    OnlyOneGives(s, q, e, a, b.subtype[0], inside, dims, ap);
    OneInside(s, q, e, a, b, inside, dims, ap);
  }

  lemma {:induction false} OnlyOneGives(s: string, q: nat, e: nat, a: DType, y: DType, inside: bool, dims: seq<nat>,
      ap: nat)
    requires |a.subtype| == 1 && FullReady(s, q + 1, q + 1, e, a.subtype[0], y, inside, dims, ap)
    ensures var r := Parse(s, q + 1, e, inside, dims, ap, q);
            r.t == Some(y) && r.ap == ap + |Counts(y)|
    decreases a, 0, 0
  {
    FullGives(s, q + 1, q + 1, e, a.subtype[0], y, inside, dims, ap, q);
  }

  lemma OneIsReady(s: string, q: nat, e: nat, a: DType, b: DType, inside: bool, dims: seq<nat>, ap: nat)
    requires InnerReady(s, q, e, a, b, inside, dims, ap) && !a.tag.Tuple?
    ensures |a.subtype| == 1 == |b.subtype|
    ensures FullReady(s, q + 1, q + 1, e, a.subtype[0], b.subtype[0], inside, dims, ap)
  {
    FirstOfFulls(s, q + 1, e, a.subtype, 0, inside);
    StartOfFull(s, q + 1, e, a.subtype[0], inside, dims, ap, q);
    assert WritesFrom(a.subtype, 0, b.subtype, 0);
    PlacedInside(a, 0);
  }

  lemma OneInside(s: string, q: nat, e: nat, a: DType, b: DType, inside: bool, dims: seq<nat>, ap: nat)
    requires Window(s, q + 1, e) && e < |s| && s[q] != '(' && |b.subtype| == 1
    requires Counts(b.subtype[0]) == CountsFrom(b.subtype, 0)
    requires Parse(s, q + 1, e, inside, dims, ap, q).t == Some(b.subtype[0])
    requires Parse(s, q + 1, e, inside, dims, ap, q).ap == ap + |Counts(b.subtype[0])|
    ensures InsideGives(s, q, e, b, inside, dims, ap)
  {
    assert b.subtype == [b.subtype[0]];
  }

  lemma PlacedInside(a: DType, i: nat)
    requires WellFormed(a) && i < |a.subtype|
    ensures Placed(a.subtype[i], a.isReference)
  {
  }

  lemma FirstOfFulls(s: string, q: nat, e: nat, ts: seq<DType>, i: nat, inside: bool)
    requires q <= e < |s| && IsCloser(s[e]) && i < |ts| && s[q..e] == FullFrom(ts, i, inside)
    ensures var c := q + |Full(ts[i], inside)|;
            && StandsAt(s, q, Full(ts[i], inside)) && c <= e
            && (i + 1 == |ts| ==> c == e)
            && (i + 1 < |ts| ==> c + 2 <= e && s[c] == ',' && s[c + 1] == ' '
                                 && s[c + 2..e] == FullFrom(ts, i + 1, inside))
  {
    FullFromStep(ts, i, inside);
    PieceStands(s, q, e, Full(ts[i], inside), i + 1 < |ts|, FullFrom(ts, i + 1, inside));
  }

  lemma FullFromStep(ts: seq<DType>, i: nat, inside: bool)
    requires i < |ts|
    ensures FullFrom(ts, i, inside)
         == Full(ts[i], inside) + (if i + 1 < |ts| then ", " else "") + FullFrom(ts, i + 1, inside)
    ensures i + 1 == |ts| ==> FullFrom(ts, i + 1, inside) == ""
  {
  }

  lemma PieceStands(s: string, q: nat, e: nat, w: string, more: bool, rest: string)
    requires q <= e <= |s| && s[q..e] == w + (if more then ", " else "") + rest && (!more ==> rest == "")
    ensures var c := q + |w|;
            && c <= e && s[q..c] == w && (!more ==> c == e)
            && (more ==> c + 2 <= e && s[c] == ',' && s[c + 1] == ' ' && s[c + 2..e] == rest)
  {
    PartsStand(s, q, e, w, if more then ", " else "", rest);
    if more {
      CommaStands(s, q + |w|);
    }
  }

  lemma CommaStands(s: string, c: nat)
    requires c + 2 <= |s| && s[c..c + 2] == ", "
    ensures s[c] == ',' && s[c + 1] == ' '
  {
    assert s[c..c + 2][0] == s[c] && s[c..c + 2][1] == s[c + 1];
  }

  lemma PartsStand(s: string, q: nat, e: nat, w: string, comma: string, rest: string)
    requires q <= e <= |s| && s[q..e] == w + comma + rest
    ensures var c := q + |w|;
            && c + |comma| <= e && s[q..c] == w && s[c..c + |comma|] == comma && s[c + |comma|..e] == rest
  {
    var t, c, d := s[q..e], |w|, |w| + |comma|;
    assert t[..c] == w && t[c..d] == comma && t[d..] == rest;
    SliceOfSlice(s, q, e, 0, c);
    SliceOfSlice(s, q, e, c, d);
    SliceOfSlice(s, q, e, d, e - q);
  }

  lemma SliceOfSlice(s: string, q: nat, e: nat, i: nat, j: nat)
    requires q <= e <= |s| && i <= j <= e - q
    ensures s[q + i..q + j] == s[q..e][i..j]
  {
    forall k | 0 <= k < j - i ensures s[q + i..q + j][k] == s[q..e][i..j][k] {
      assert s[q..e][i..j][k] == s[q..e][i + k];
    }
  }

  lemma {:induction false} TupleGives(s: string, q: nat, e: nat, a: DType, b: DType, inside: bool, dims: seq<nat>,
      ap: nat)
    requires InnerReady(s, q, e, a, b, inside, dims, ap) && a.tag.Tuple?
    ensures InsideGives(s, q, e, b, inside, dims, ap)
    decreases a, 1, 0
  {
    TupleReady(s, q, e, a, b, inside, dims, ap);
    TupleKidsGive(s, q, e, a, b.subtype, inside, dims, ap);
    TupleInside(s, q, e, b, inside, dims, ap);
  }

  lemma {:induction false} TupleKidsGive(s: string, q: nat, e: nat, a: DType, ys: seq<DType>, inside: bool,
      dims: seq<nat>, ap: nat)
    requires KidsReady(s, q + 1, q + 1, e, a.subtype, 0, ys, 0, inside, dims, ap)
    ensures KidsGiven(ys, 0, ap, ParseKids(s, q + 1, e, inside, dims, ap, |ys|, ys[..0]))
    decreases a, 0
  {
    KidsGive(s, q + 1, q + 1, e, a.subtype, 0, ys, 0, inside, dims, ap);
  }

  /** What is needed to parse the components i of a tuple and those after it as the components j of another. */
  ghost predicate KidsReady(s: string, cur: nat, q: nat, e: nat, xs: seq<DType>, i: nat, ys: seq<DType>, j: nat,
      inside: bool, dims: seq<nat>, ap: nat)
  {
    && i <= |xs| && j <= |ys|
    && KidsStand(s, cur, q, e, xs, i, ys, j, inside, dims, ap) && WritesFrom(xs, i, ys, j)
  }

  /** The components i of a tuple and those after it stand at q, and the counts of the components j of another are
      next. */
  ghost predicate KidsStand(s: string, cur: nat, q: nat, e: nat, xs: seq<DType>, i: nat, ys: seq<DType>, j: nat,
      inside: bool, dims: seq<nat>, ap: nat)
  {
    && i <= |xs| && j <= |ys| && Window(s, cur, e) && KidStands(s, cur, q, e, xs, i, inside)
    && AllOrdinary(xs, inside) && AllOrdinary(ys, inside) && ArgsAt(dims, ap, CountsFrom(ys, j))
  }

  lemma TupleReady(s: string, q: nat, e: nat, a: DType, b: DType, inside: bool, dims: seq<nat>, ap: nat)
    requires InnerReady(s, q, e, a, b, inside, dims, ap) && a.tag.Tuple?
    ensures s[q] == '(' && KidsReady(s, q + 1, q + 1, e, a.subtype, 0, b.subtype, 0, inside, dims, ap)
  {
    FirstStands(s, q, e, a.subtype, inside, dims, ap);
    AllPlaced(a);
    AllPlaced(b);
  }

  lemma TupleInside(s: string, q: nat, e: nat, b: DType, inside: bool, dims: seq<nat>, ap: nat)
    requires Window(s, q + 1, e) && e < |s| && s[q] == '(' && Ordinary(b) && b.tag.Tuple?
    requires KidsGiven(b.subtype, 0, ap, ParseKids(s, q + 1, e, inside, dims, ap, |b.subtype|, b.subtype[..0]))
    ensures InsideGives(s, q, e, b, inside, dims, ap)
  {
    ComponentsOfTuple(s, q, e, inside, dims, ap, |b.subtype|);
    assert b.subtype[..0] == [] && NumSubvals(b) == |b.subtype|;
  }

  lemma FirstStands(s: string, q: nat, e: nat, ts: seq<DType>, inside: bool, dims: seq<nat>, ap: nat)
    requires Window(s, q + 1, e) && e < |s| && IsCloser(s[e]) && s[q + 1..e] == FullFrom(ts, 0, inside)
    ensures KidStands(s, q + 1, q + 1, e, ts, 0, inside)
  {
    if ts != [] {
      FirstOfFulls(s, q + 1, e, ts, 0, inside);
      StartOfFull(s, q + 1, e, ts[0], inside, dims, ap, q);
    }
  }

  lemma ComponentsOfTuple(s: string, q: nat, e: nat, inside: bool, dims: seq<nat>, ap: nat, n: nat)
    requires Window(s, q + 1, e) && e < |s| && s[q] == '('
    ensures ParseComponents(s, q, e, inside, dims, ap, n) == ParseKids(s, q + 1, e, inside, dims, ap, n, [])
  {
  }

  predicate AllOrdinary(ts: seq<DType>, inside: bool) {
    forall k :: 0 <= k < |ts| ==> Ordinary(ts[k]) && Placed(ts[k], inside)
  }

  lemma AllPlaced(a: DType)
    requires Ordinary(a)
    ensures AllOrdinary(a.subtype, a.isReference)
  {
  }

  predicate KidsGiven(ys: seq<DType>, j: nat, ap: nat, r: ParsedKids)
    requires j <= |ys|
  {
    r == ParsedKids(Some(ys), ap + |CountsFrom(ys, j)|, 0)
  }

  /** Where the text of component i of a tuple stands, after the separators from cur on. */
  predicate KidStands(s: string, cur: nat, q: nat, e: nat, xs: seq<DType>, i: nat, inside: bool)
    requires i <= |xs|
  {
    cur <= e < |s| && IsCloser(s[e]) &&
    if i == |xs| then cur == e
    else cur <= q <= e && SkipSeparators(s, cur) == q && s[q..e] == FullFrom(xs, i, inside)
  }

  lemma {:induction false} KidsGive(s: string, cur: nat, q: nat, e: nat, xs: seq<DType>, i: nat, ys: seq<DType>, j: nat,
      inside: bool, dims: seq<nat>, ap: nat)
    requires KidsReady(s, cur, q, e, xs, i, ys, j, inside, dims, ap)
    ensures KidsGiven(ys, j, ap, ParseKids(s, cur, e, inside, dims, ap, |ys|, ys[..j]))
    decreases xs, 0, |ys| - j
  {
    if j == |ys| {
      NoKidsLeft(s, cur, e, ys, inside, dims, ap);
    } else {
      KidIsReady(s, cur, q, e, xs, i, ys, j, inside, dims, ap);
      FullGives(s, cur, q, e, xs[i], ys[j], inside, dims, ap, cur);
      var kid := Parse(s, cur, e, inside, dims, ap, cur);
      var i' := if xs[i].tag.Tuple? then i else i + 1;
      RestIsReady(s, cur, q, e, xs, i, ys, j, inside, dims, ap, kid);
      KidsGive(s, kid.next, if i' == i then q else kid.next + 2, e, xs, i', ys, j + 1, inside, dims, kid.ap);
      OneMoreGiven(s, cur, e, ys, j, inside, dims, ap, kid);
    }
  }

  lemma KidIsReady(s: string, cur: nat, q: nat, e: nat, xs: seq<DType>, i: nat, ys: seq<DType>, j: nat,
      inside: bool, dims: seq<nat>, ap: nat)
    requires KidsReady(s, cur, q, e, xs, i, ys, j, inside, dims, ap) && j < |ys|
    ensures i < |xs| && FullReady(s, cur, q, e, xs[i], ys[j], inside, dims, ap)
  {
    ArgsAfter(dims, ap, Counts(ys[j]), CountsFrom(ys, j + 1));
    FirstOfFulls(s, q, e, xs, i, inside);
  }

  lemma RestIsReady(s: string, cur: nat, q: nat, e: nat, xs: seq<DType>, i: nat, ys: seq<DType>, j: nat,
      inside: bool, dims: seq<nat>, ap: nat, kid: Parsed)
    requires KidsReady(s, cur, q, e, xs, i, ys, j, inside, dims, ap) && j < |ys| && i < |xs|
    requires Gives(xs[i], ys[j], inside, q, ap, cur, kid)
    ensures var i' := if xs[i].tag.Tuple? then i else i + 1;
            KidsReady(s, kid.next, if i' == i then q else kid.next + 2, e, xs, i', ys, j + 1, inside, dims, kid.ap)
    ensures kid.t == Some(ys[j]) && kid.ap == ap + |Counts(ys[j])| && Window(s, kid.next, e)
  {
    RestKidsStand(s, cur, q, e, xs, i, ys, j, inside, dims, ap, kid);
    WritesRest(xs, i, ys, j);
  }

  lemma WritesRest(xs: seq<DType>, i: nat, ys: seq<DType>, j: nat)
    requires i < |xs| && j < |ys| && WritesFrom(xs, i, ys, j)
    ensures WritesFrom(xs, if xs[i].tag.Tuple? then i else i + 1, ys, j + 1)
  {
  }

  lemma RestStands(s: string, cur: nat, q: nat, e: nat, xs: seq<DType>, i: nat, inside: bool, c: nat)
    requires i < |xs| && KidStands(s, cur, q, e, xs, i, inside) && CString(s)
    requires c == if xs[i].tag.Tuple? then cur else q + |Full(xs[i], inside)|
    ensures var i' := if xs[i].tag.Tuple? then i else i + 1;
            c <= e && KidStands(s, c, if i' == i then q else c + 2, e, xs, i', inside)
  {
    NextStands(s, cur, q, e, xs, i, inside);
  }

  lemma NoKidsLeft(s: string, cur: nat, e: nat, ys: seq<DType>, inside: bool, dims: seq<nat>, ap: nat)
    requires Window(s, cur, e)
    ensures KidsGiven(ys, |ys|, ap, ParseKids(s, cur, e, inside, dims, ap, |ys|, ys[..|ys|]))
  {
    assert ys[..|ys|] == ys;
  }

  lemma OneMoreGiven(s: string, cur: nat, e: nat, ys: seq<DType>, j: nat, inside: bool, dims: seq<nat>, ap: nat,
      kid: Parsed)
    requires Window(s, cur, e) && j < |ys| && kid == Parse(s, cur, e, inside, dims, ap, cur)
    requires kid.t == Some(ys[j]) && kid.ap == ap + |Counts(ys[j])| && Window(s, kid.next, e)
    requires KidsGiven(ys, j + 1, kid.ap, ParseKids(s, kid.next, e, inside, dims, kid.ap, |ys|, ys[..j + 1]))
    ensures KidsGiven(ys, j, ap, ParseKids(s, cur, e, inside, dims, ap, |ys|, ys[..j]))
  {
    assert ys[..j] + [ys[j]] == ys[..j + 1];
  }

  lemma NextStands(s: string, cur: nat, q: nat, e: nat, xs: seq<DType>, i: nat, inside: bool)
    requires i < |xs| && KidStands(s, cur, q, e, xs, i, inside) && CString(s)
    ensures var c := q + |Full(xs[i], inside)|;
            c <= e && KidStands(s, c, c + 2, e, xs, i + 1, inside)
  {
    FirstOfFulls(s, q, e, xs, i, inside);
    if i + 1 < |xs| {
      AfterComma(s, q + |Full(xs[i], inside)|, e, xs, i + 1, inside);
    }
  }

  lemma AfterComma(s: string, c: nat, e: nat, xs: seq<DType>, i: nat, inside: bool)
    requires c + 2 <= e < |s| && IsCloser(s[e]) && s[c] == ',' && s[c + 1] == ' ' && i < |xs| && CString(s)
    requires s[c + 2..e] == FullFrom(xs, i, inside)
    ensures SkipSeparators(s, c) == c + 2
  {
    NothingSkipped(s, c + 2, e, xs, i, inside);
    CommaSkips(s, c);
  }

  lemma NothingSkipped(s: string, q: nat, e: nat, xs: seq<DType>, i: nat, inside: bool)
    requires q <= e < |s| && IsCloser(s[e]) && i < |xs| && s[q..e] == FullFrom(xs, i, inside) && CString(s)
    ensures SkipSeparators(s, q) == q
  {
    FirstOfFulls(s, q, e, xs, i, inside);
    StartOfFull(s, q, e, xs[i], inside, [], 0, 0);
  }

  lemma CommaSkips(s: string, c: nat)
    requires c + 2 <= |s| && s[c] == ',' && s[c + 1] == ' '
    ensures SkipSeparators(s, c) == SkipSeparators(s, c + 2)
  {
    assert SkipSeparators(s, c) == SkipSeparators(s, c + 1);
  }

  // ---------------------------------------------------------------- nothing else gives the type

  /** If the parse of the text of a, with the counts of b, gives b, then Writes says so. */
  lemma {:induction false} FullOnly(s: string, start: nat, p: nat, end: nat, a: DType, b: DType, inside: bool,
      dims: seq<nat>, ap: nat, next: nat)
    requires FullStands(s, start, p, end, a, b, inside, dims, ap)
    requires Parse(s, start, end, inside, dims, ap, next).t == Some(b)
    ensures Writes(a, b)
    decreases a, 3
  {
    ParseIsOfBare(s, start, p, end, a, inside, dims, ap, next);
    var q, now := p + |Amp(a, inside)|, inside || a.isReference;
    if IsContainer(a.tag) {
      BareOnly(s, q, end, a, b, now, dims, ap, next);
    } else {
      ScalarOnly(s, q, end, a, b, now, dims, ap, next);
    }
  }

  lemma ScalarOnly(s: string, q: nat, end: nat, a: DType, b: DType, inside: bool, dims: seq<nat>, ap: nat, next: nat)
    requires BareStands(s, q, end, a, inside) && Ordinary(a) && !IsContainer(a.tag)
    requires IsText(a.tag) ==> a.isReference == inside
    requires ParseAt(s, q, end, inside, dims, ap, next).t == Some(b)
    ensures Writes(a, b)
  {
    StaticOrdinary(a, a);
    SpecifierReads(s, q, a, inside);
    ScalarAt(s, q, end, inside, dims, ap, next, a, q + |Specifier(a)|);
  }

  /** The text between the brackets at q and e, and the counts of the subtypes of b. */
  ghost predicate InnerStands(s: string, q: nat, e: nat, a: DType, b: DType, inside: bool, dims: seq<nat>, ap: nat) {
    && Window(s, q + 1, e) && e < |s| && IsCloser(s[e]) && s[q + 1..e] == FullFrom(a.subtype, 0, inside)
    && IsContainer(a.tag) && IsOpener(s[q]) && BraceTag(s[q]) == a.tag == b.tag
    && inside == a.isReference == b.isReference
    && Ordinary(a) && Ordinary(b) && ArgsAt(dims, ap, CountsFrom(b.subtype, 0))
    && (!b.tag.Tuple? ==> Counts(b.subtype[0]) == CountsFrom(b.subtype, 0))
  }

  /** What is between the brackets has given the subtypes of b. */
  predicate InsideGave(s: string, q: nat, e: nat, b: DType, inside: bool, dims: seq<nat>, ap: nat)
    requires Window(s, q + 1, e) && e < |s|
  {
    ParseComponents(s, q, e, inside, dims, ap, NumSubvals(b)).ts == Some(b.subtype)
  }

  lemma {:induction false} BareOnly(s: string, q: nat, end: nat, a: DType, b: DType, inside: bool, dims: seq<nat>,
      ap: nat, next: nat)
    requires BareStands(s, q, end, a, inside)
    requires IsContainer(a.tag) && Ordinary(a) && Ordinary(b) && inside == a.isReference
    requires ArgsAt(dims, ap, Counts(b)) && ParseAt(s, q, end, inside, dims, ap, next).t == Some(b)
    ensures Writes(a, b)
    decreases a, 2, 0
  {
    var e := q + |Bare(a, inside)| - 1;
    BracketsOfBare(s, q, e, end, a, inside);
    BracedHas(s, q, e, end, a.tag, b, inside, dims, ap, next);
    InsideStands(s, q, e, end, a, b, inside, dims, ap);
    InnerOnly(s, q, e, a, b, inside, dims, AfterNode(b, ap));
  }

  /** The brackets of a container at q and e. */
  predicate BracketsAt(s: string, q: nat, e: nat, end: nat, tag: Tag) {
    && Window(s, q, end) && q < e < end && Window(s, q + 1, e) && IsOpener(s[q]) && BraceTag(s[q]) == tag
    && EndBrace(s, MatchingCloser(s[q]), q, end) == Some(e)
  }

  lemma BracketsOfBare(s: string, q: nat, e: nat, end: nat, a: DType, inside: bool)
    requires BareStands(s, q, end, a, inside) && e == q + |Bare(a, inside)| - 1 && IsContainer(a.tag)
    ensures BracketsAt(s, q, e, end, a.tag)
  {
    EndOfBare(s, q, end, a, inside);
  }

  lemma InsideStands(s: string, q: nat, e: nat, end: nat, a: DType, b: DType, inside: bool, dims: seq<nat>, ap: nat)
    requires BareStands(s, q, end, a, inside) && e == q + |Bare(a, inside)| - 1
    requires IsContainer(a.tag) && Ordinary(a) && Ordinary(b) && ArgsAt(dims, ap, Counts(b))
    requires a.tag == b.tag && inside == a.isReference == b.isReference
    ensures InnerStands(s, q, e, a, b, inside, dims, AfterNode(b, ap))
  {
    EndOfBare(s, q, end, a, inside);
    CountsInside(b, dims, ap);
  }

  lemma {:induction false} InnerOnly(s: string, q: nat, e: nat, a: DType, b: DType, inside: bool, dims: seq<nat>,
      ap: nat)
    requires InnerStands(s, q, e, a, b, inside, dims, ap) && InsideGave(s, q, e, b, inside, dims, ap)
    ensures Writes(a, b)
    decreases a, 1, 1
  {
    if a.tag.Tuple? {
      TupleOnly(s, q, e, a, b, inside, dims, ap);
    } else {
      OneOnly(s, q, e, a, b, inside, dims, ap);
    }
  }

  /** What a braced text has given, and what has been parsed inside. */
  lemma BracedHas(s: string, q: nat, e: nat, end: nat, tag: Tag, b: DType, inside: bool, dims: seq<nat>, ap: nat,
      next: nat)
    requires BracketsAt(s, q, e, end, tag) && Ordinary(b) && ArgsAt(dims, ap, Counts(b))
    requires ParseAt(s, q, end, inside, dims, ap, next).t == Some(b)
    ensures b.tag == tag && IsContainer(b.tag) && b.isReference == inside
    ensures InsideGave(s, q, e, b, inside, dims, AfterNode(b, ap))
  {
    assert ParseAt(s, q, end, inside, dims, ap, next) == ParseBraced(s, q, end, inside, dims, ap, next);
    OrdinaryContainer(b);
    CountsInside(b, dims, ap);
  }

  lemma {:induction false} OneOnly(s: string, q: nat, e: nat, a: DType, b: DType, inside: bool, dims: seq<nat>, ap: nat)
    requires InnerStands(s, q, e, a, b, inside, dims, ap) && InsideGave(s, q, e, b, inside, dims, ap) && !a.tag.Tuple?
    ensures Writes(a, b)
    decreases a, 1, 0
  {
    OneStands(s, q, e, a, b, inside, dims, ap);
    FullOnly(s, q + 1, q + 1, e, a.subtype[0], b.subtype[0], inside, dims, ap, q);
    OneWrites(a, b);
  }

  lemma OneWrites(a: DType, b: DType)
    requires Ordinary(a) && Ordinary(b) && a.tag == b.tag && a.isReference == b.isReference
    requires IsContainer(a.tag) && |a.subtype| == 1 == |b.subtype| && Writes(a.subtype[0], b.subtype[0])
    ensures Writes(a, b)
  {
    assert WritesFrom(a.subtype, if a.subtype[0].tag.Tuple? then 0 else 1, b.subtype, 1);
    assert WritesFrom(a.subtype, 0, b.subtype, 0);
  }

  lemma OneStands(s: string, q: nat, e: nat, a: DType, b: DType, inside: bool, dims: seq<nat>, ap: nat)
    requires InnerStands(s, q, e, a, b, inside, dims, ap) && InsideGave(s, q, e, b, inside, dims, ap) && !a.tag.Tuple?
    ensures |a.subtype| == 1 == |b.subtype|
    ensures FullStands(s, q + 1, q + 1, e, a.subtype[0], b.subtype[0], inside, dims, ap)
    ensures Parse(s, q + 1, e, inside, dims, ap, q).t == Some(b.subtype[0])
  {
    FirstOfFulls(s, q + 1, e, a.subtype, 0, inside);
    StartOfFull(s, q + 1, e, a.subtype[0], inside, dims, ap, q);
    PlacedInside(a, 0);
  }

  lemma {:induction false} TupleOnly(s: string, q: nat, e: nat, a: DType, b: DType, inside: bool, dims: seq<nat>,
      ap: nat)
    requires InnerStands(s, q, e, a, b, inside, dims, ap) && InsideGave(s, q, e, b, inside, dims, ap) && a.tag.Tuple?
    ensures Writes(a, b)
    decreases a, 1, 0
  {
    TupleStands(s, q, e, a, b, inside, dims, ap);
    TupleKidsOnly(s, q, e, a, b.subtype, inside, dims, ap);
    TupleWrites(a, b);
  }

  lemma {:induction false} TupleKidsOnly(s: string, q: nat, e: nat, a: DType, ys: seq<DType>, inside: bool,
      dims: seq<nat>, ap: nat)
    requires KidsStand(s, q + 1, q + 1, e, a.subtype, 0, ys, 0, inside, dims, ap)
    requires ParseKids(s, q + 1, e, inside, dims, ap, |ys|, ys[..0]).ts == Some(ys)
    ensures WritesFrom(a.subtype, 0, ys, 0)
    decreases a, 0
  {
    KidsOnly(s, q + 1, q + 1, e, a.subtype, 0, ys, 0, inside, dims, ap);
  }

  lemma TupleWrites(a: DType, b: DType)
    requires a.tag == b.tag && a.isReference == b.isReference && a.numBytes == b.numBytes
    requires WritesFrom(a.subtype, 0, b.subtype, 0)
    ensures Writes(a, b)
  {
  }

  lemma TupleStands(s: string, q: nat, e: nat, a: DType, b: DType, inside: bool, dims: seq<nat>, ap: nat)
    requires InnerStands(s, q, e, a, b, inside, dims, ap) && InsideGave(s, q, e, b, inside, dims, ap) && a.tag.Tuple?
    ensures KidsStand(s, q + 1, q + 1, e, a.subtype, 0, b.subtype, 0, inside, dims, ap)
    ensures ParseKids(s, q + 1, e, inside, dims, ap, |b.subtype|, b.subtype[..0]).ts == Some(b.subtype)
  {
    FirstStands(s, q, e, a.subtype, inside, dims, ap);
    AllPlaced(a);
    AllPlaced(b);
    ComponentsOfTuple(s, q, e, inside, dims, ap, |b.subtype|);
    assert b.subtype[..0] == [] && NumSubvals(b) == |b.subtype|;
  }

  lemma {:induction false} KidsOnly(s: string, cur: nat, q: nat, e: nat, xs: seq<DType>, i: nat, ys: seq<DType>, j: nat,
      inside: bool, dims: seq<nat>, ap: nat)
    requires KidsStand(s, cur, q, e, xs, i, ys, j, inside, dims, ap)
    requires ParseKids(s, cur, e, inside, dims, ap, |ys|, ys[..j]).ts == Some(ys)
    ensures WritesFrom(xs, i, ys, j)
    decreases xs, 0, |ys| - j
  {
    if j < |ys| {
      var kid := Parse(s, cur, e, inside, dims, ap, cur);
      KidIsRight(s, cur, e, ys, j, inside, dims, ap);
      KidStandsThere(s, cur, q, e, xs, i, ys, j, inside, dims, ap);
      FullOnly(s, cur, q, e, xs[i], ys[j], inside, dims, ap, cur);
      FullGives(s, cur, q, e, xs[i], ys[j], inside, dims, ap, cur);
      var i' := if xs[i].tag.Tuple? then i else i + 1;
      RestKidsStand(s, cur, q, e, xs, i, ys, j, inside, dims, ap, kid);
      KidsOnly(s, kid.next, if i' == i then q else kid.next + 2, e, xs, i', ys, j + 1, inside, dims, kid.ap);
    }
  }

  lemma KidStandsThere(s: string, cur: nat, q: nat, e: nat, xs: seq<DType>, i: nat, ys: seq<DType>, j: nat,
      inside: bool, dims: seq<nat>, ap: nat)
    requires KidsStand(s, cur, q, e, xs, i, ys, j, inside, dims, ap) && j < |ys|
    requires Parse(s, cur, e, inside, dims, ap, cur).t == Some(ys[j])
    ensures i < |xs| && FullStands(s, cur, q, e, xs[i], ys[j], inside, dims, ap)
  {
    ArgsAfter(dims, ap, Counts(ys[j]), CountsFrom(ys, j + 1));
    if i < |xs| {
      FirstOfFulls(s, q, e, xs, i, inside);
    }
  }

  /** The component parsed next is the one that stands there in the end. */
  lemma KidIsRight(s: string, cur: nat, e: nat, ys: seq<DType>, j: nat, inside: bool, dims: seq<nat>, ap: nat)
    requires Window(s, cur, e) && j < |ys| && ParseKids(s, cur, e, inside, dims, ap, |ys|, ys[..j]).ts == Some(ys)
    ensures var kid := Parse(s, cur, e, inside, dims, ap, cur);
            && kid.t == Some(ys[j]) && Window(s, kid.next, e)
            && ParseKids(s, kid.next, e, inside, dims, kid.ap, |ys|, ys[..j + 1]).ts == Some(ys)
  {
    var kid := Parse(s, cur, e, inside, dims, ap, cur);
    var done := ys[..j] + [kid.t.value];
    KidsExtend(s, kid.next, e, inside, dims, kid.ap, |ys|, done);
    assert done[j] == kid.t.value && ys[..j] + [ys[j]] == ys[..j + 1];
  }

  lemma {:induction false} KidsExtend(s: string, cur: nat, e: nat, inside: bool, dims: seq<nat>, ap: nat, n: nat,
      done: seq<DType>)
    requires Window(s, cur, e) && |done| <= n
    ensures var r := ParseKids(s, cur, e, inside, dims, ap, n, done);
            r.ts.Some? ==> forall k :: 0 <= k < |done| ==> r.ts.value[k] == done[k]
    decreases n - |done|
  {
    if |done| < n {
      var kid := Parse(s, cur, e, inside, dims, ap, cur);
      if kid.t.Some? {
        var more := done + [kid.t.value];
        KidsExtend(s, kid.next, e, inside, dims, kid.ap, n, more);
        assert forall k :: 0 <= k < |done| ==> more[k] == done[k];
      }
    }
  }

  lemma RestKidsStand(s: string, cur: nat, q: nat, e: nat, xs: seq<DType>, i: nat, ys: seq<DType>, j: nat,
      inside: bool, dims: seq<nat>, ap: nat, kid: Parsed)
    requires KidsStand(s, cur, q, e, xs, i, ys, j, inside, dims, ap) && j < |ys| && i < |xs|
    requires Gives(xs[i], ys[j], inside, q, ap, cur, kid)
    ensures var i' := if xs[i].tag.Tuple? then i else i + 1;
            KidsStand(s, kid.next, if i' == i then q else kid.next + 2, e, xs, i', ys, j + 1, inside, dims, kid.ap)
  {
    ArgsAfter(dims, ap, Counts(ys[j]), CountsFrom(ys, j + 1));
    RestStands(s, cur, q, e, xs, i, inside, kid.next);
  }

  // ---------------------------------------------------------------- the round trip

  lemma {:induction false} FullIsCString(t: DType, inside: bool)
    ensures CString(Full(t, inside))
    decreases t, |t.subtype| + 1
  {
    if IsContainer(t.tag) {
      FullFromIsCString(t.subtype, 0, inside || t.isReference);
    }
  }

  lemma {:induction false} FullFromIsCString(ts: seq<DType>, i: nat, inside: bool)
    requires i <= |ts|
    ensures CString(FullFrom(ts, i, inside))
    decreases ts, |ts| - i
  {
    if i < |ts| {
      FullIsCString(ts[i], inside);
      FullFromIsCString(ts, i + 1, inside);
    }
  }

  /** The whole type string gives exactly the type, references, the side of the counts, and the size of every number
      included, if and only if the type can be written; and then no argument is read but its counts. */
  lemma FullRoundTrip(t: DType, dims: seq<nat>)
    requires Ordinary(t) && Counts(t) <= dims
    ensures CString(Full(t, false)) && (ParseString(Full(t, false), dims).t == Some(t) <==> Writes(t, t))
    ensures Writes(t, t)
       ==> ParseString(Full(t, false), dims).ap == |Counts(t)| && ParseString(Full(t, false), dims).lost == 0
  {
    FullIsCString(t, false);
    var s := Full(t, false);
    assert s[0..0 + |s|] == s;
    StartOfFull(s, 0, |s|, t, false, dims, 0, 0);
    forall k | 0 <= k < |Counts(t)| ensures Arg(dims, 0 + k) == Counts(t)[k] {
    }
    if Writes(t, t) {
      FullGives(s, 0, 0, |s|, t, t, false, dims, 0, 0);
    } else if ParseString(s, dims).t == Some(t) {
      FullOnly(s, 0, 0, |s|, t, t, false, dims, 0, 0);
    }
  }

  /** It is enough that no tuple has a component, other than the last, that is itself a tuple. */
  lemma {:induction false} TuplesLastWrite(t: DType)
    requires Shaped(t) && TuplesLast(t)
    ensures Writes(t, t)
    decreases t, 1, 0
  {
    if IsContainer(t.tag) {
      TuplesLastWriteFrom(t.subtype, 0);
    }
  }

  lemma {:induction false} TuplesLastWriteFrom(ts: seq<DType>, i: nat)
    requires i <= |ts| && forall k :: 0 <= k < |ts| ==> Shaped(ts[k]) && TuplesLast(ts[k])
    requires forall k :: 0 <= k < |ts| - 1 ==> !ts[k].tag.Tuple?
    ensures WritesFrom(ts, i, ts, i)
    decreases ts, 0, |ts| - i
  {
    if i < |ts| {
      TuplesLastWrite(ts[i]);
      if i + 1 < |ts| {
        TuplesLastWriteFrom(ts, i + 1);
      }
    }
  }
}
