/** Parsing what the printer wrote. The short text of a type is parsed again with the element counts
    of a type in preorder; what comes back is characterized exactly, first for any counts at all
    (Reparse), then for when it is the type itself (Covers). */
module RoundTrip {
  import opened AdiakTypes
  import opened TypeStrings
  import opened TypePrinter

  /** The short form of a type's text. */
  function Short(t: DType): (s: string)
    ensures s != ""
  {
    TypeText(t, false)
  }

  function ShortFrom(ts: seq<DType>, i: nat): string
    requires i <= |ts|
  {
    TextFrom(ts, i, false)
  }

  function Comma(ts: seq<DType>, i: nat): string {
    if i + 1 == |ts| then "" else ", "
  }

  lemma ShortFromStep(ts: seq<DType>, i: nat)
    requires i < |ts|
    ensures ShortFrom(ts, i) == Short(ts[i]) + Comma(ts, i) + ShortFrom(ts, i + 1)
  {
    assert ShortFrom(ts, i) == Piece(ts, i, false) + ShortFrom(ts, i + 1);
  }

  // ---------------------------------------------------------------- braces in a text

  lemma {:induction false} DepthOfConcat(a: string, b: string)
    ensures Depth(a + b) == Depth(a) + Depth(b)
    decreases |b|
  {
    if b == "" {
      assert a + b == a;
    } else {
      DepthOfConcat(a, b[..|b| - 1]);
      assert (a + b)[..|a + b| - 1] == a + b[..|b| - 1];
    }
  }

  /** No prefix has more closers than openers. */
  ghost predicate NeverNegative(w: string) {
    forall k :: 0 <= k <= |w| ==> Depth(w[..k]) >= 0
  }

  lemma NeverNegativeConcat(a: string, b: string)
    requires NeverNegative(a) && NeverNegative(b)
    ensures NeverNegative(a + b)
  {
    forall k | 0 <= k <= |a + b| ensures Depth((a + b)[..k]) >= 0 {
      if k <= |a| {
        assert (a + b)[..k] == a[..k];
      } else {
        assert (a + b)[..k] == a + b[..k - |a|];
        DepthOfConcat(a, b[..k - |a|]);
        assert Depth(a[..|a|]) >= 0 && a[..|a|] == a;
      }
    }
  }

  /** The number of ranges in a type, at any level. */
  function Ranges(t: DType): nat
    decreases t, |t.subtype| + 1
  {
    (if t.tag.Range? then 1 else 0) + if IsContainer(t.tag) then RangesFrom(t.subtype, 0) else 0
  }

  function RangesFrom(ts: seq<DType>, i: nat): nat
    requires i <= |ts|
    decreases ts, |ts| - i
  {
    if i == |ts| then 0 else Ranges(ts[i]) + RangesFrom(ts, i + 1)
  }

  /** A short text leaves as many braces open as the type has ranges. */
  lemma {:induction false} DepthOfText(t: DType)
    ensures Depth(Short(t)) == Ranges(t) && NeverNegative(Short(t))
    decreases t, |t.subtype| + 1
  {
    if IsContainer(t.tag) {
      DepthInContainer(t);
      forall k | 0 <= k <= |Short(t)| ensures Depth(Short(t)[..k]) >= 0 {
        assert Short(t)[..|Short(t)|] == Short(t);
      }
    } else {
      FlatTextDepth(SimpleText(t.tag, false));
    }
  }

  lemma {:induction false} FlatTextDepth(w: string)
    requires forall k :: 0 <= k < |w| ==> !IsOpener(w[k]) && !IsCloser(w[k])
    ensures Depth(w) == 0 && NeverNegative(w)
    decreases |w|
  {
    if w != "" {
      FlatTextDepth(w[..|w| - 1]);
      forall k | 0 <= k <= |w| ensures Depth(w[..k]) >= 0 {
        if k < |w| {
          assert w[..k] == w[..|w| - 1][..k];
        } else {
          assert w[..k] == w;
        }
      }
    }
  }

  lemma DepthOfPiece(a: string, sep: string, b: string)
    requires NeverNegative(a) && NeverNegative(b) && (sep == "" || sep == ", ")
    ensures Depth(a + sep + b) == Depth(a) + Depth(b) && NeverNegative(a + sep + b)
  {
    FlatTextDepth(sep);
    DepthOfConcat(a, sep);
    DepthOfConcat(a + sep, b);
    NeverNegativeConcat(a, sep);
    NeverNegativeConcat(a + sep, b);
  }

  lemma {:induction false} DepthOfTextFrom(ts: seq<DType>, i: nat)
    requires i <= |ts|
    ensures Depth(ShortFrom(ts, i)) == RangesFrom(ts, i) && NeverNegative(ShortFrom(ts, i))
    decreases ts, |ts| - i
  {
    if i < |ts| {
      DepthOfText(ts[i]);
      DepthOfTextFrom(ts, i + 1);
      DepthOfPiece(Short(ts[i]), Comma(ts, i), ShortFrom(ts, i + 1));
      ShortFromStep(ts, i);
    }
  }

  /** Inside the text of a container, its own brace is open all the time. */
  lemma {:induction false} DepthInContainer(t: DType)
    requires IsContainer(t.tag)
    ensures Depth(Short(t)) == Ranges(t)
    ensures forall k :: 0 < k < |Short(t)| ==> Depth(Short(t)[..k]) >= 1
    decreases t, |t.subtype|
  {
    var open, body, close := Opening(t.tag, false), ShortFrom(t.subtype, 0), Closing(t.tag, false);
    DepthOfTextFrom(t.subtype, 0);
    OneBrace(open);
    if close != "" {
      OneBrace(close);
    }
    DepthOfConcat(open, body);
    DepthOfConcat(open + body, close);
    forall k | 0 < k <= |open + body| ensures Depth(Short(t)[..k]) >= 1 {
      assert Short(t)[..k] == open + body[..k - 1];
      DepthOfConcat(open, body[..k - 1]);
    }
  }

  lemma OneBrace(c: string)
    requires |c| == 1
    ensures Depth(c) == DepthChange(c[0])
  {
    assert c[..0] == "";
  }

  /** Brace matching: wherever the text of a range-free container stands, and whatever follows it,
      the brace that opens it is matched with the brace that ends it. */
  lemma EndBraceOfText(s: string, p: nat, end: nat, t: DType)
    requires p + |Short(t)| <= end <= |s| && s[p..p + |Short(t)|] == Short(t)
    requires IsContainer(t.tag) && Ranges(t) == 0
    ensures EndBrace(s, MatchingCloser(s[p]), p, end) == Some(p + |Short(t)| - 1)
  {
    var e := p + |Short(t)| - 1;
    DepthInContainer(t);
    assert s[p..e + 1] == Short(t);
    assert s[e] == Short(t)[|Short(t)| - 1] && s[p] == Short(t)[0];
    forall k | p <= k < e ensures !Closes(s, MatchingCloser(s[p]), p, k) {
      assert s[p..k + 1] == Short(t)[..k + 1 - p];
    }
    EndBraceIsFirst(s, MatchingCloser(s[p]), p, end, Some(e));
  }

  /** The text of a type with a range in it has no end to its outermost brace. */
  lemma NoEndBrace(t: DType, c: char)
    requires IsContainer(t.tag) && Ranges(t) > 0
    ensures EndBrace(Short(t), c, 0, |Short(t)|) == None
  {
    var s := Short(t);
    DepthInContainer(t);
    forall k | 0 <= k < |s| ensures !Closes(s, c, 0, k) {
      assert s[0..k + 1] == s[..k + 1];
      assert s[..|s|] == s;
    }
    EndBraceIsFirst(s, c, 0, |s|, None);
  }

  lemma {:induction false} TextIsCString(t: DType)
    ensures CString(Short(t))
    decreases t, |t.subtype| + 1
  {
    if IsContainer(t.tag) {
      TextFromIsCString(t.subtype, 0);
    }
  }

  lemma {:induction false} TextFromIsCString(ts: seq<DType>, i: nat)
    requires i <= |ts|
    ensures CString(ShortFrom(ts, i))
    decreases ts, |ts| - i
  {
    if i < |ts| {
      TextIsCString(ts[i]);
      TextFromIsCString(ts, i + 1);
      ShortFromStep(ts, i);
    }
  }

  /** A type with a range in it prints to a string that the parser rejects, and the node of its
      outermost container is lost on the way. */
  lemma RangesAreRejected(t: DType, dims: seq<nat>)
    requires Ranges(t) > 0
    ensures CString(Short(t)) && ParseString(Short(t), dims).t == None && ParseString(Short(t), dims).lost == 1
  {
    TextIsCString(t);
    var s := Short(t);
    NoEndBrace(t, MatchingCloser(s[0]));
    assert s[0] == Opening(t.tag, false)[0];
    assert IsOpener(s[0]) && SkipSeparators(s, 0) == 0;
    assert Parse(s, 0, |s|, false, dims, 0, 0) == ParseBraced(s, 0, |s|, false, dims, 0, 0);
  }

  // ---------------------------------------------------------------- parsing a text

  /** What parsing the text of t does, for any arguments, said without the text: the tags come from
      t, the element counts from the arguments, widths and references are the defaults. Reading the
      components of a tuple does not go past one that is itself a tuple. */
  function Reparse(t: DType, dims: seq<nat>, ap: nat): (r: (Option<DType>, nat))
    requires Shaped(t)
    decreases t, 0
  {
    if !IsContainer(t.tag) then (GetBaseType(t.tag), ap)
    else if t.tag.Tuple? then
      var (kids, ap') := ReparseKids(t.subtype, 0, dims, ap + 1, Arg(dims, ap), []);
      (if kids.None? then None else Some(Container(Tuple, Arg(dims, ap), false, kids.value)), ap')
    else
      var (sub, ap') := Reparse(t.subtype[0], dims, ap + 1);
      (if sub.None? then None else Some(Container(t.tag, Arg(dims, ap), false, [sub.value])), ap')
  }

  /** The n components of a tuple, read from the texts of ts[i..]. */
  function ReparseKids(ts: seq<DType>, i: nat, dims: seq<nat>, ap: nat, n: nat, done: seq<DType>)
    : (r: (Option<seq<DType>>, nat))
    requires i <= |ts| && |done| <= n && forall k :: 0 <= k < |ts| ==> Shaped(ts[k])
    ensures r.0.Some? ==> |r.0.value| == n
    decreases ts, n - |done|
  {
    if |done| == n then (Some(done), ap)
    else if i == |ts| then (None, ap)
    else
      var (kid, ap') := Reparse(ts[i], dims, ap);
      if kid.None? then (None, ap')
      else ReparseKids(ts, if ts[i].tag.Tuple? then i else i + 1, dims, ap', n, done + [kid.value])
  }

  /** The text w stands at p in s, and no digit follows it. */
  ghost predicate StandsAt(s: string, p: nat, w: string) {
    p + |w| <= |s| && s[p..p + |w|] == w && !IsDigit(At(s, p + |w|))
  }

  lemma ScalarOfText(s: string, p: nat, t: DType)
    requires CString(s) && StandsAt(s, p, Short(t)) && IsStatic(t)
    ensures s[p] == '%' && ParseScalar(s, p + 1, false) == Some((GetBaseType(t.tag).value, p + |Short(t)|))
  {
    var w := Short(t);
    assert s[p..p + |w|][0] == w[0] && s[p..p + |w|][1] == w[1];
    assert |w| > 2 ==> s[p..p + |w|][2] == w[2];
    assert |w| > 3 ==> s[p..p + |w|][3] == w[3];
    assert LetterAt(s, p + 1) == p + |w| - 1;
  }

  /** Where the parser starts on a text, it sees the text's first character. */
  lemma StartOfText(s: string, p: nat, t: DType)
    requires StandsAt(s, p, Short(t)) && Shaped(t)
    ensures s[p] == Short(t)[0] && SkipSeparators(s, p) == p && s[p] != '&'
    ensures IsContainer(t.tag) ==> s[p] == Opening(t.tag, false)[0] && IsOpener(s[p]) && BraceTag(s[p]) == t.tag
  {
    if IsContainer(t.tag) {
      assert Short(t)[0] == Opening(t.tag, false)[0];
    }
  }

  lemma FirstOfTexts(s: string, q: nat, e: nat, ts: seq<DType>, i: nat)
    requires q <= e < |s| && IsCloser(s[e]) && i < |ts| && s[q..e] == ShortFrom(ts, i)
    ensures var c := q + |Short(ts[i])|;
            && StandsAt(s, q, Short(ts[i])) && c <= e
            && (i + 1 == |ts| ==> c == e)
            && (i + 1 < |ts| ==> c + 2 <= e && s[c] == ',' && s[c + 1] == ' ' && s[c + 2..e] == ShortFrom(ts, i + 1))
  {
    var w, c := Short(ts[i]), q + |Short(ts[i])|;
    ShortFromStep(ts, i);
    assert s[q..e][..|w|] == w && s[q..e][|w|..] == Comma(ts, i) + ShortFrom(ts, i + 1);
    assert s[q..c] == s[q..e][..|w|];
    assert s[c..e] == s[q..e][|w|..];
    if i + 1 < |ts| {
      assert s[c..e][0] == ',' && s[c..e][1] == ' ';
      assert s[c + 2..e] == s[c..e][2..];
    }
  }

  /** The parser on the text of a range-free type does what Reparse says, wherever the text stands
      and whatever follows it. */
  lemma {:induction false} ParseOfText(s: string, start: nat, p: nat, end: nat, t: DType, dims: seq<nat>, ap: nat,
      next: nat)
    requires Window(s, start, end) && start <= p == SkipSeparators(s, start) && p + |Short(t)| <= end
    requires StandsAt(s, p, Short(t)) && Shaped(t) && Ranges(t) == 0
    ensures var r := Parse(s, start, end, false, dims, ap, next);
            && (r.t, r.ap) == Reparse(t, dims, ap)
            && (r.t.Some? ==> r.next == if t.tag.Tuple? then next else p + |Short(t)|)
    decreases t, 2, 0
  {
    StartOfText(s, p, t);
    assert Parse(s, start, end, false, dims, ap, next) == ParseAt(s, p, end, false, dims, ap, next);
    if !IsContainer(t.tag) {
      ScalarOfText(s, p, t);
    } else {
      ParseOfContainerText(s, p, end, t, dims, ap, next);
    }
  }

  lemma {:induction false} ParseOfContainerText(s: string, p: nat, end: nat, t: DType, dims: seq<nat>, ap: nat,
      next: nat)
    requires Window(s, p, end) && p + |Short(t)| <= end && StandsAt(s, p, Short(t))
    requires Shaped(t) && Ranges(t) == 0 && IsContainer(t.tag) && IsOpener(s[p]) && BraceTag(s[p]) == t.tag
    ensures var r := ParseBraced(s, p, end, false, dims, ap, next);
            && (r.t, r.ap) == Reparse(t, dims, ap)
            && (r.t.Some? ==> r.next == if t.tag.Tuple? then next else p + |Short(t)|)
    decreases t, 1, 0
  {
    var e := p + |Short(t)| - 1;
    InsideContainer(s, p, end, t);
    if t.tag.Tuple? {
      if t.subtype != [] {
        FirstOfTexts(s, p + 1, e, t.subtype, 0);
        StartOfText(s, p + 1, t.subtype[0]);
      }
      KidsOfText(s, p + 1, p + 1, e, t.subtype, 0, dims, ap + 1, Arg(dims, ap), []);
    } else {
      FirstOfTexts(s, p + 1, e, t.subtype, 0);
      StartOfText(s, p + 1, t.subtype[0]);
      ParseOfText(s, p + 1, p + 1, e, t.subtype[0], dims, ap + 1, p);
    }
  }

  /** Between the braces of a container's text stand the texts of its subtypes. */
  lemma InsideContainer(s: string, p: nat, end: nat, t: DType)
    requires Window(s, p, end) && p + |Short(t)| <= end && StandsAt(s, p, Short(t))
    requires Ranges(t) == 0 && IsContainer(t.tag) && IsOpener(s[p]) && BraceTag(s[p]) == t.tag
    ensures var e := p + |Short(t)| - 1;
            && p < e && EndBrace(s, MatchingCloser(s[p]), p, end) == Some(e)
            && IsCloser(s[e]) && s[p + 1..e] == ShortFrom(t.subtype, 0)
  {
    var e, body := p + |Short(t)| - 1, ShortFrom(t.subtype, 0);
    EndBraceOfText(s, p, end, t);
    assert Short(t) == Opening(t.tag, false) + body + Closing(t.tag, false);
    assert s[p..e + 1] == Short(t);
    var w := s[p..e + 1];
    assert w[1..|w| - 1] == body;
    var inner := s[p + 1..e];
    forall k | 0 <= k < |inner| ensures inner[k] == body[k] {
      assert inner[k] == s[p + (k + 1)] == w[k + 1];
    }
  }

  /** The loop over the components of a tuple, where the texts of ts[i..] stand from q to the
      closing brace at e. */
  lemma {:induction false} KidsOfText(s: string, cur: nat, q: nat, e: nat, ts: seq<DType>, i: nat, dims: seq<nat>,
      ap: nat, n: nat, done: seq<DType>)
    requires Window(s, cur, e) && e < |s| && i <= |ts| && |done| <= n
    requires (forall k :: 0 <= k < |ts| ==> Shaped(ts[k])) && RangesFrom(ts, i) == 0
    requires i == |ts| ==> cur == e
    requires i < |ts| ==> cur <= q == SkipSeparators(s, cur) && q <= e && s[q..e] == ShortFrom(ts, i)
    ensures var k := ParseKids(s, cur, e, false, dims, ap, n, done);
            (k.ts, k.ap) == ReparseKids(ts, i, dims, ap, n, done)
    decreases ts, 0, n - |done|
  {
    if |done| < n && i < |ts| {
      FirstKidOfText(s, cur, q, e, ts, i, dims, ap);
      var kid := Parse(s, cur, e, false, dims, ap, cur);
      if kid.t.Some? {
        var c, i' := kid.next, if ts[i].tag.Tuple? then i else i + 1;
        KidsOfText(s, c, if i' == i then q else c + 2, e, ts, i', dims, kid.ap, n, done + [kid.t.value]);
      }
    }
  }

  /** The first of the texts, and where the parse goes on after it. */
  lemma {:induction false} FirstKidOfText(s: string, cur: nat, q: nat, e: nat, ts: seq<DType>, i: nat, dims: seq<nat>,
      ap: nat)
    requires Window(s, cur, e) && e < |s| && i < |ts| && Shaped(ts[i]) && RangesFrom(ts, i) == 0
    requires i + 1 < |ts| ==> Shaped(ts[i + 1])
    requires cur <= q == SkipSeparators(s, cur) && q <= e && s[q..e] == ShortFrom(ts, i)
    ensures var kid := Parse(s, cur, e, false, dims, ap, cur);
            && (kid.t, kid.ap) == Reparse(ts[i], dims, ap)
            && (kid.t.Some? ==> cur <= kid.next <= e && if ts[i].tag.Tuple? then kid.next == cur
                                else if i + 1 == |ts| then kid.next == e
                                else StandsNext(s, kid.next, e, ts, i + 1))
    decreases ts, 0, 0
  {
    NextText(s, q, e, ts, i);
    ParseOfText(s, cur, q, e, ts[i], dims, ap, cur);
  }

  /** The first text, and what comes after it. */
  lemma NextText(s: string, q: nat, e: nat, ts: seq<DType>, i: nat)
    requires q <= e < |s| && IsCloser(s[e]) && i < |ts| && Shaped(ts[i]) && (i + 1 < |ts| ==> Shaped(ts[i + 1]))
    requires s[q..e] == ShortFrom(ts, i)
    ensures var c := q + |Short(ts[i])|;
            && StandsAt(s, q, Short(ts[i])) && c <= e
            && if i + 1 == |ts| then c == e else StandsNext(s, c, e, ts, i + 1)
  {
    FirstOfTexts(s, q, e, ts, i);
    if i + 1 < |ts| {
      StartOfNext(s, q + |Short(ts[i])|, e, ts, i + 1);
    }
  }

  /** After a comma the texts from i on are next. */
  predicate StandsNext(s: string, c: nat, e: nat, ts: seq<DType>, i: nat) {
    c + 2 <= e < |s| && i <= |ts| && SkipSeparators(s, c) == c + 2 && s[c + 2..e] == ShortFrom(ts, i)
  }

  lemma StartOfNext(s: string, c: nat, e: nat, ts: seq<DType>, i: nat)
    requires c + 2 <= e < |s| && IsCloser(s[e]) && s[c] == ',' && s[c + 1] == ' '
    requires i < |ts| && Shaped(ts[i]) && s[c + 2..e] == ShortFrom(ts, i)
    ensures SkipSeparators(s, c) == c + 2
  {
    FirstOfTexts(s, c + 2, e, ts, i);
    StartOfText(s, c + 2, ts[i]);
    assert SkipSeparators(s, c) == SkipSeparators(s, c + 1) == SkipSeparators(s, c + 2);
  }

  // ---------------------------------------------------------------- the round trip

  /** The element counts of a type in preorder, as adiak_namevalue wants them. A range has none. */
  function Counts(t: DType): seq<nat>
    decreases t, |t.subtype| + 1
  {
    if !IsContainer(t.tag) then []
    else (if t.tag.Range? then [] else [NumSubvals(t)]) + CountsFrom(t.subtype, 0)
  }

  function CountsFrom(ts: seq<DType>, i: nat): seq<nat>
    requires i <= |ts|
    decreases ts, |ts| - i
  {
    if i == |ts| then [] else Counts(ts[i]) + CountsFrom(ts, i + 1)
  }

  /** What a short text and the counts do not keep: the widths of scalars and the references. */
  function Erase(t: DType): (r: DType)
    requires Shaped(t)
    ensures r.tag == t.tag
    decreases t
  {
    if IsContainer(t.tag) then
      Container(t.tag, NumSubvals(t), false, seq(|t.subtype|, i requires 0 <= i < |t.subtype| => Erase(t.subtype[i])))
    else GetBaseType(t.tag).value
  }

  function EraseFirst(ts: seq<DType>, n: nat): (r: seq<DType>)
    requires n <= |ts| && forall i :: 0 <= i < |ts| ==> Shaped(ts[i])
    ensures |r| == n && forall i :: 0 <= i < n ==> r[i] == Erase(ts[i])
  {
    seq(n, i requires 0 <= i < n => Erase(ts[i]))
  }

  /** Parsing the text of a with the counts of b gives b: the tags agree, and each component of a
      tuple b is covered by the component of a whose text the parser is at. It stays at a tuple. */
  predicate Covers(a: DType, b: DType)
    decreases a, b, 0
  {
    && a.tag == b.tag
    && (IsContainer(a.tag) ==> CoversFrom(a.subtype, 0, b.subtype, 0))
  }

  predicate CoversFrom(xs: seq<DType>, i: nat, ys: seq<DType>, j: nat)
    requires i <= |xs| && j <= |ys|
    decreases xs, ys, |ys| - j
  {
    j == |ys| || (i < |xs| && Covers(xs[i], ys[j]) && CoversFrom(xs, if xs[i].tag.Tuple? then i else i + 1, ys, j + 1))
  }

  /** The arguments from ap on start with cs. */
  ghost predicate ArgsAt(dims: seq<nat>, ap: nat, cs: seq<nat>) {
    forall k :: 0 <= k < |cs| ==> Arg(dims, ap + k) == cs[k]
  }

  lemma {:induction false} EraseKeepsCounts(t: DType)
    requires Shaped(t)
    ensures Counts(Erase(t)) == Counts(t)
    decreases t, |t.subtype| + 1
  {
    if IsContainer(t.tag) {
      var r := Erase(t);
      assert r.subtype == EraseFirst(t.subtype, |t.subtype|);
      EraseKeepsCountsFrom(t.subtype, 0);
    }
  }

  lemma {:induction false} EraseKeepsCountsFrom(ts: seq<DType>, i: nat)
    requires i <= |ts| && forall i :: 0 <= i < |ts| ==> Shaped(ts[i])
    ensures CountsFrom(EraseFirst(ts, |ts|), i) == CountsFrom(ts, i)
    decreases ts, |ts| - i
  {
    if i < |ts| {
      EraseKeepsCounts(ts[i]);
      EraseKeepsCountsFrom(ts, i + 1);
    }
  }

  /** A successful parse of a text reads exactly the counts of its result. */
  lemma {:induction false} ReparseReads(t: DType, dims: seq<nat>, ap: nat)
    requires Shaped(t) && Ranges(t) == 0
    ensures var (r, ap') := Reparse(t, dims, ap);
            r.Some? ==> ap' == ap + |Counts(r.value)|
    decreases t, 2, 0
  {
    if IsContainer(t.tag) {
      if t.tag.Tuple? {
        ReparseKidsRead(t.subtype, 0, dims, ap + 1, Arg(dims, ap), []);
      } else {
        ReparseReads(t.subtype[0], dims, ap + 1);
        var (sub, ap') := Reparse(t.subtype[0], dims, ap + 1);
        if sub.Some? {
          assert CountsFrom([sub.value], 0) == Counts(sub.value) + CountsFrom([sub.value], 1);
        }
      }
    }
  }

  lemma {:induction false} ReparseKidsRead(ts: seq<DType>, i: nat, dims: seq<nat>, ap: nat, n: nat, done: seq<DType>)
    requires i <= |ts| && |done| <= n && forall k :: 0 <= k < |ts| ==> Shaped(ts[k])
    requires RangesFrom(ts, i) == 0
    ensures var (r, ap') := ReparseKids(ts, i, dims, ap, n, done);
            r.Some? ==> done <= r.value && ap' == ap + |CountsFrom(r.value, |done|)|
    decreases ts, 0, n - |done|
  {
    if |done| < n && i < |ts| {
      ReparseReads(ts[i], dims, ap);
      var (kid, ap') := Reparse(ts[i], dims, ap);
      if kid.Some? {
        ReparseKidsRead(ts, if ts[i].tag.Tuple? then i else i + 1, dims, ap', n, done + [kid.value]);
      }
    }
  }

  /** Given the counts of b, the text of a gives b exactly if a covers b. */
  lemma {:induction false} ReparseGives(a: DType, b: DType, dims: seq<nat>, ap: nat)
    requires Shaped(a) && Ranges(a) == 0 && Shaped(b) && ArgsAt(dims, ap, Counts(b))
    ensures Covers(a, b) <==> Reparse(a, dims, ap).0 == Some(Erase(b))
    decreases a, 2, 0
  {
    if a.tag == b.tag && IsContainer(a.tag) {
      CountsAfterNode(b, dims, ap);
      if a.tag.Tuple? {
        assert Erase(b).subtype == EraseFirst(b.subtype, |b.subtype|);
        assert EraseFirst(b.subtype, 0) == [];
        ReparseKidsGive(a.subtype, 0, b.subtype, 0, dims, ap + 1);
      } else {
        assert Erase(b) == Container(b.tag, NumSubvals(b), false, [Erase(b.subtype[0])]);
        assert CoversFrom(a.subtype, 1, b.subtype, 1) && CoversFrom(a.subtype, 0, b.subtype, 1);
        ReparseGives(a.subtype[0], b.subtype[0], dims, ap + 1);
      }
    }
  }

  lemma CountsAfterNode(b: DType, dims: seq<nat>, ap: nat)
    requires IsContainer(b.tag) && !b.tag.Range? && ArgsAt(dims, ap, Counts(b))
    ensures Arg(dims, ap) == NumSubvals(b) && ArgsAt(dims, ap + 1, CountsFrom(b.subtype, 0))
    ensures |b.subtype| == 1 ==> ArgsAt(dims, ap + 1, Counts(b.subtype[0]))
  {
    ArgsAfter(dims, ap, [NumSubvals(b)], CountsFrom(b.subtype, 0));
    assert [NumSubvals(b)][0] == NumSubvals(b);
    if |b.subtype| == 1 {
      ArgsAfter(dims, ap + 1, Counts(b.subtype[0]), CountsFrom(b.subtype, 1));
    }
  }

  lemma {:induction false} ReparseKidsGive(xs: seq<DType>, i: nat, ys: seq<DType>, j: nat, dims: seq<nat>, ap: nat)
    requires (forall k :: 0 <= k < |xs| ==> Shaped(xs[k])) && (forall k :: 0 <= k < |ys| ==> Shaped(ys[k]))
    requires i <= |xs| && j <= |ys| && RangesFrom(xs, i) == 0 && ArgsAt(dims, ap, CountsFrom(ys, j))
    ensures CoversFrom(xs, i, ys, j)
            <==> ReparseKids(xs, i, dims, ap, |ys|, EraseFirst(ys, j)).0 == Some(EraseFirst(ys, |ys|))
    decreases xs, 0, |ys| - j
  {
    if j < |ys| && i < |xs| {
      KidGives(xs, i, ys, j, dims, ap);
      var i' := if xs[i].tag.Tuple? then i else i + 1;
      var (kid, ap') := Reparse(xs[i], dims, ap);
      if Covers(xs[i], ys[j]) {
        ReparseKidsGive(xs, i', ys, j + 1, dims, ap');
      } else if kid.Some? {
        OtherKidReads(xs, i', ys, j, dims, ap', kid.value);
      }
    }
  }

  /** One component: it is the right one exactly if it covers the one printed, and then the counts of the rest are
      next. */
  lemma {:induction false} KidGives(xs: seq<DType>, i: nat, ys: seq<DType>, j: nat, dims: seq<nat>, ap: nat)
    requires (forall k :: 0 <= k < |xs| ==> Shaped(xs[k])) && (forall k :: 0 <= k < |ys| ==> Shaped(ys[k]))
    requires i < |xs| && j < |ys| && RangesFrom(xs, i) == 0 && ArgsAt(dims, ap, CountsFrom(ys, j))
    ensures var (kid, ap') := Reparse(xs[i], dims, ap);
            && (Covers(xs[i], ys[j]) <==> kid == Some(Erase(ys[j])))
            && (Covers(xs[i], ys[j]) ==> ArgsAt(dims, ap', CountsFrom(ys, j + 1))
                                         && EraseFirst(ys, j) + [kid.value] == EraseFirst(ys, j + 1))
    decreases xs, 0, 0
  {
    ArgsAfter(dims, ap, Counts(ys[j]), CountsFrom(ys, j + 1));
    ReparseGives(xs[i], ys[j], dims, ap);
    ReparseReads(xs[i], dims, ap);
    EraseKeepsCounts(ys[j]);
  }

  /** A component that differs from the one printed shows in what the rest of the tuple gives. */
  lemma OtherKidReads(xs: seq<DType>, i: nat, ys: seq<DType>, j: nat, dims: seq<nat>, ap: nat, kid: DType)
    requires (forall k :: 0 <= k < |xs| ==> Shaped(xs[k])) && (forall k :: 0 <= k < |ys| ==> Shaped(ys[k]))
    requires i <= |xs| && j < |ys| && RangesFrom(xs, i) == 0 && kid != Erase(ys[j])
    ensures ReparseKids(xs, i, dims, ap, |ys|, EraseFirst(ys, j) + [kid]).0 != Some(EraseFirst(ys, |ys|))
  {
    var done := EraseFirst(ys, j) + [kid];
    ReparseKidsRead(xs, i, dims, ap, |ys|, done);
    assert done[j] == kid;
  }

  lemma ArgsAfter(dims: seq<nat>, ap: nat, cs: seq<nat>, rest: seq<nat>)
    requires ArgsAt(dims, ap, cs + rest)
    ensures ArgsAt(dims, ap, cs) && ArgsAt(dims, ap + |cs|, rest)
  {
    forall k | 0 <= k < |rest| ensures Arg(dims, ap + |cs| + k) == rest[k] {
      assert (cs + rest)[|cs| + k] == rest[k];
    }
    forall k | 0 <= k < |cs| ensures Arg(dims, ap + k) == cs[k] {
      assert (cs + rest)[k] == cs[k];
    }
  }

  /** Print/parse round trip. The short text of a type, parsed with the type's counts, gives the
      type back, with default widths and without references, exactly if there is no range in the
      type and the type covers itself. */
  lemma {:induction false} RoundTripExactly(t: DType, dims: seq<nat>)
    requires Shaped(t) && Counts(t) <= dims
    ensures CString(Short(t))
    ensures ParseString(Short(t), dims).t == Some(Erase(t)) <==> Ranges(t) == 0 && Covers(t, t)
    ensures Ranges(t) == 0 && Covers(t, t) ==> ParseString(Short(t), dims).ap == |Counts(t)|
  {
    TextIsCString(t);
    if Ranges(t) > 0 {
      RangesAreRejected(t, dims);
    } else {
      var s := Short(t);
      assert s[0..0 + |s|] == s;
      StartOfText(s, 0, t);
      ParseOfText(s, 0, 0, |s|, t, dims, 0, 0);
      ReparseGives(t, t, dims, 0);
      ReparseReads(t, dims, 0);
      EraseKeepsCounts(t);
    }
  }

  /** No tuple has a component, other than the last, that is itself a tuple. */
  predicate TuplesLast(t: DType) {
    && (t.tag.Tuple? ==> forall i :: 0 <= i < |t.subtype| - 1 ==> !t.subtype[i].tag.Tuple?)
    && (forall i :: 0 <= i < |t.subtype| ==> TuplesLast(t.subtype[i]))
  }

  /** Such a type covers itself, so that it survives the round trip. */
  lemma {:induction false} TuplesLastCover(t: DType)
    requires Shaped(t) && TuplesLast(t)
    ensures Covers(t, t)
    decreases t, 1, 0
  {
    if IsContainer(t.tag) {
      TuplesLastCoverFrom(t.subtype, 0);
    }
  }

  lemma {:induction false} TuplesLastCoverFrom(ts: seq<DType>, i: nat)
    requires i <= |ts| && forall k :: 0 <= k < |ts| ==> Shaped(ts[k]) && TuplesLast(ts[k])
    requires forall k :: 0 <= k < |ts| - 1 ==> !ts[k].tag.Tuple?
    ensures CoversFrom(ts, i, ts, i)
    decreases ts, 0, |ts| - i
  {
    if i < |ts| {
      TuplesLastCover(ts[i]);
      if i + 1 < |ts| {
        TuplesLastCoverFrom(ts, i + 1);
      }
    }
  }

  /** A type that does not survive: ((%d), %d). */
  function EarlyTuple(): DType {
    Container(Tuple, 2, false, [Container(Tuple, 1, false, [BASE_INT]), BASE_INT])
  }

  /** After the inner tuple the parser is still where the inner tuple starts, whatever arguments
      follow the two counts. */
  lemma EarlyTupleIsParsedAgain(dims: seq<nat>)
    requires [2, 1] <= dims
    ensures Shaped(EarlyTuple()) && Counts(EarlyTuple()) == [2, 1] && CString(Short(EarlyTuple()))
    ensures Ranges(EarlyTuple()) == 0 && ParseString(Short(EarlyTuple()), dims).t != Some(Erase(EarlyTuple()))
  {
    EarlyTupleCounts();
    var t := EarlyTuple();
    assert !CoversFrom(t.subtype, 0, t.subtype, 1);
    RoundTripExactly(t, dims);
  }

  lemma EarlyTupleCounts()
    ensures Counts(EarlyTuple()) == [2, 1] && Ranges(EarlyTuple()) == 0
  {
    var inner := Container(Tuple, 1, false, [BASE_INT]);
    OneNumber(inner.subtype);
    InnerAndNumber(EarlyTuple().subtype, inner);
  }

  lemma OneNumber(ts: seq<DType>)
    requires ts == [BASE_INT]
    ensures CountsFrom(ts, 0) == [] && RangesFrom(ts, 0) == 0
  {
    assert CountsFrom(ts, 1) == [] && RangesFrom(ts, 1) == 0;
  }

  lemma InnerAndNumber(ts: seq<DType>, inner: DType)
    requires ts == [inner, BASE_INT] && inner.tag.Tuple? && NumSubvals(inner) == 1
    requires CountsFrom(inner.subtype, 0) == [] && RangesFrom(inner.subtype, 0) == 0
    ensures CountsFrom(ts, 0) == [1] && RangesFrom(ts, 0) == 0
  {
    assert Counts(inner) == [1] && Ranges(inner) == 0;
    assert CountsFrom(ts, 2) == [] && CountsFrom(ts, 1) == [];
    assert RangesFrom(ts, 2) == 0 && RangesFrom(ts, 1) == 0;
  }
}
