/** The long form of a type's text read back by the words of the documentation: it is unambiguous. */
module LongTexts {
  import opened AdiakTypes
  import opened TypePrinter

  /** The tags of a type at all levels. */
  datatype Tags = Tags(tag: Tag, kids: seq<Tags>)

  function TagsOf(t: DType): Tags {
    Tags(t.tag, seq(|t.subtype|, i requires 0 <= i < |t.subtype| => TagsOf(t.subtype[i])))
  }

  // ---------------------------------------------------------------- the reader

  /** The type that a word names. */
  function Named(w: string): Option<Tag> {
    if w == "int" then Some(Int)
    else if w == "unsigned int" then Some(UInt)
    else if w == "long" then Some(Long)
    else if w == "unsigned long" then Some(ULong)
    else if w == "long long" then Some(LongLong)
    else if w == "unsigned long long" then Some(ULongLong)
    else if w == "double" then Some(Double)
    else if w == "date" then Some(Date)
    else if w == "timeval" then Some(Timeval)
    else if w == "version" then Some(Version)
    else if w == "string" then Some(String)
    else if w == "catstring" then Some(CatString)
    else if w == "jsonstring" then Some(JsonString)
    else if w == "path" then Some(Path)
    else None
  }

  predicate InWord(c: char) {
    'a' <= c <= 'z' || c == ' '
  }

  function CharAt(s: string, p: nat): char {
    if p < |s| then s[p] else NUL
  }

  /** The end of the letters and spaces from p on. */
  function WordEnd(s: string, p: nat): (e: nat)
    requires p <= |s|
    ensures p <= e <= |s|
    decreases |s| - p
  {
    if InWord(CharAt(s, p)) && p < |s| then WordEnd(s, p + 1) else p
  }

  predicate StartsAt(s: string, p: nat, w: string) {
    p + |w| <= |s| && s[p..p + |w|] == w
  }

  /** A type at p, and the position after it. */
  function ReadType(s: string, p: nat): (r: Option<(Tags, nat)>)
    requires p <= |s|
    ensures r.Some? ==> p < r.value.1 <= |s|
    decreases |s| - p, 1
  {
    if StartsAt(s, p, "set of ") then ReadOf(s, p + 7, Set, false)
    else if StartsAt(s, p, "list of ") then ReadOf(s, p + 8, List, false)
    else if StartsAt(s, p, "range of ") then ReadOf(s, p + 9, Range, true)
    else if StartsAt(s, p, "tuple of (") then ReadTuple(s, p + 10)
    else
      var e := WordEnd(s, p);
      if Named(s[p..e]).Some? then Some((Tags(Named(s[p..e]).value, []), e)) else None
  }

  /** The one subtype of a container, and the arrow that ends a range. */
  function ReadOf(s: string, p: nat, tag: Tag, arrow: bool): (r: Option<(Tags, nat)>)
    requires p <= |s|
    ensures r.Some? ==> p < r.value.1 <= |s|
    decreases |s| - p, 2
  {
    var kid := ReadType(s, p);
    if kid.None? || (arrow && CharAt(s, kid.value.1) != '>') then None
    else Some((Tags(tag, [kid.value.0]), kid.value.1 + if arrow then 1 else 0))
  }

  /** The subtypes of a tuple, and the closer. */
  function ReadTuple(s: string, p: nat): (r: Option<(Tags, nat)>)
    requires p <= |s|
    ensures r.Some? ==> p < r.value.1 <= |s|
    decreases |s| - p, 3
  {
    if CharAt(s, p) == ')' then Some((Tags(Tuple, []), p + 1)) else
    var kids := ReadTypes(s, p);
    if kids.Some? && CharAt(s, kids.value.1) == ')' then Some((Tags(Tuple, kids.value.0), kids.value.1 + 1)) else None
  }

  /** Types with a comma and a space between them. */
  function ReadTypes(s: string, p: nat): (r: Option<(seq<Tags>, nat)>)
    requires p <= |s|
    ensures r.Some? ==> p < r.value.1 <= |s|
    decreases |s| - p, 2
  {
    var kid := ReadType(s, p);
    if kid.None? then None
    else if !StartsAt(s, kid.value.1, ", ") then Some(([kid.value.0], kid.value.1))
    else
      var rest := ReadTypes(s, kid.value.1 + 2);
      if rest.None? then None else Some(([kid.value.0] + rest.value.0, rest.value.1))
  }

  // ---------------------------------------------------------------- the text reads back

  function LongText(t: DType): (s: string)
    ensures s != ""
  {
    TypeText(t, true)
  }

  /** The text stands at p, and what follows is not part of a word. */
  predicate Stands(s: string, p: nat, w: string) {
    StartsAt(s, p, w) && !InWord(CharAt(s, p + |w|))
  }

  /** A reader at p finds the tags of t, and goes on after its text. */
  predicate ReadsAs(s: string, p: nat, t: DType) {
    p <= |s| && ReadType(s, p) == Some((TagsOf(t), p + |LongText(t)|))
  }

  predicate KidsReadAs(s: string, p: nat, ts: seq<DType>, i: nat)
    requires i <= |ts|
  {
    p <= |s| && ReadTypes(s, p) == Some((TagsFrom(ts, i), p + |TextFrom(ts, i, true)|))
  }

  predicate TypeStands(s: string, p: nat, t: DType) {
    Stands(s, p, LongText(t))
  }

  lemma {:induction false} WordEndIs(s: string, p: nat, e: nat)
    requires p <= e <= |s| && (forall k :: p <= k < e ==> InWord(s[k])) && !InWord(CharAt(s, e))
    ensures WordEnd(s, p) == e
    decreases e - p
  {
    if p < e {
      WordEndIs(s, p + 1, e);
    }
  }

  lemma WordReads(s: string, p: nat, t: DType)
    requires IsStatic(t) && TypeStands(s, p, t)
    ensures ReadsAs(s, p, t)
  {
    var w := LongText(t);
    SimpleWord(t.tag);
    forall k | p <= k < p + |w| ensures InWord(s[k]) {
      assert s[k] == s[p..p + |w|][k - p];
    }
    WordEndIs(s, p, p + |w|);
    assert s[p] == w[0] && s[p + 1] == w[1] by {
      assert s[p..p + |w|][0] == s[p] && s[p..p + |w|][1] == s[p + 1];
    }
    NoOpening(s, p);
    assert TagsOf(t).kids == [] && s[p..WordEnd(s, p)] == w;
  }

  lemma SimpleWord(tag: Tag)
    requires !IsContainer(tag) && tag != Unset
    ensures var w := SimpleText(tag, true);
            && |w| >= 2 && (forall k :: 0 <= k < |w| ==> InWord(w[k])) && Named(w) == Some(tag)
            && !(w[0] == 's' && w[1] == 'e') && !(w[0] == 'l' && w[1] == 'i')
            && w[0] != 'r' && !(w[0] == 't' && w[1] == 'u')
  {
  }

  /** Two characters tell that none of the openings is at p. */
  lemma NoOpening(s: string, p: nat)
    requires p + 1 < |s| && !(s[p] == 's' && s[p + 1] == 'e') && !(s[p] == 'l' && s[p + 1] == 'i')
    requires s[p] != 'r' && !(s[p] == 't' && s[p + 1] == 'u')
    ensures !StartsAt(s, p, "set of ") && !StartsAt(s, p, "list of ") && !StartsAt(s, p, "range of ")
    ensures !StartsAt(s, p, "tuple of (")
  {
    StartShows(s, p, "set of ");
    StartShows(s, p, "list of ");
    StartShows(s, p, "range of ");
    StartShows(s, p, "tuple of (");
  }

  lemma StartShows(s: string, p: nat, w: string)
    requires |w| >= 2
    ensures StartsAt(s, p, w) ==> s[p] == w[0] && s[p + 1] == w[1]
  {
    if StartsAt(s, p, w) {
      assert s[p..p + |w|][0] == s[p] && s[p..p + |w|][1] == s[p + 1];
    }
  }

  /** What stands at p as a + b stands there as a, and b after it. */
  lemma SplitText(s: string, p: nat, a: string, b: string)
    requires StartsAt(s, p, a + b)
    ensures StartsAt(s, p, a) && StartsAt(s, p + |a|, b)
  {
    assert s[p..p + |a|] == s[p..p + |a + b|][..|a|];
    assert s[p + |a|..p + |a| + |b|] == s[p..p + |a + b|][|a|..];
  }

  /** The long text of a type reads back as the tags of the type, wherever it stands before the end, a comma or a
      closer. */
  lemma {:induction false} LongReadsBack(s: string, p: nat, t: DType)
    requires Shaped(t) && TypeStands(s, p, t)
    ensures ReadsAs(s, p, t)
    decreases t, 2, 0
  {
    if !IsContainer(t.tag) {
      WordReads(s, p, t);
    } else {
      var opening, body, closing := Opening(t.tag, true), TextFrom(t.subtype, 0, true), Closing(t.tag, true);
      assert LongText(t) == opening + body + closing;
      SplitText(s, p, opening + body, closing);
      SplitText(s, p, opening, body);
      if t.tag.Tuple? {
        TupleReadsBack(s, p, t);
      } else {
        OneReadsBack(s, p, t);
      }
    }
  }

  lemma {:induction false} OneReadsBack(s: string, p: nat, t: DType)
    requires Shaped(t) && IsContainer(t.tag) && !t.tag.Tuple? && TypeStands(s, p, t)
    requires var opening, body := Opening(t.tag, true), TextFrom(t.subtype, 0, true);
             StartsAt(s, p, opening) && StartsAt(s, p + |opening|, body)
             && StartsAt(s, p + |opening| + |body|, Closing(t.tag, true))
    ensures ReadsAs(s, p, t)
    decreases t, 1, 0
  {
    KidStands(s, p, t);
    LongReadsBack(s, p + |Opening(t.tag, true)|, t.subtype[0]);
    OfReads(s, p, t);
  }

  lemma KidStands(s: string, p: nat, t: DType)
    requires t.tag in {Set, List, Range} && |t.subtype| == 1 && TypeStands(s, p, t)
    requires var opening, body := Opening(t.tag, true), TextFrom(t.subtype, 0, true);
             StartsAt(s, p, opening) && StartsAt(s, p + |opening|, body)
             && StartsAt(s, p + |opening| + |body|, Closing(t.tag, true))
    ensures TypeStands(s, p + |Opening(t.tag, true)|, t.subtype[0])
    ensures StartsAt(s, p + |Opening(t.tag, true)| + |LongText(t.subtype[0])|, Closing(t.tag, true))
  {
    OneSubtype(t);
    if t.tag.Range? {
      ArrowStands(s, p + |Opening(t.tag, true)| + |LongText(t.subtype[0])|, t.tag);
    }
  }

  lemma OneSubtype(t: DType)
    requires |t.subtype| == 1 && IsContainer(t.tag)
    ensures TextFrom(t.subtype, 0, true) == LongText(t.subtype[0])
    ensures |LongText(t)| == |Opening(t.tag, true)| + |LongText(t.subtype[0])| + |Closing(t.tag, true)|
    ensures TagsOf(t) == Tags(t.tag, [TagsOf(t.subtype[0])])
  {
    assert TextFrom(t.subtype, 1, true) == "";
    assert TextFrom(t.subtype, 0, true) == LongText(t.subtype[0]) + "" + "";
    assert LongText(t) == Opening(t.tag, true) + TextFrom(t.subtype, 0, true) + Closing(t.tag, true);
  }

  lemma OfReads(s: string, p: nat, t: DType)
    requires t.tag in {Set, List, Range} && |t.subtype| == 1 && StartsAt(s, p, Opening(t.tag, true))
    requires var q := p + |Opening(t.tag, true)|;
             ReadsAs(s, q, t.subtype[0]) && StartsAt(s, q + |LongText(t.subtype[0])|, Closing(t.tag, true))
    ensures ReadsAs(s, p, t)
  {
    var q := p + |Opening(t.tag, true)|;
    var e := q + |LongText(t.subtype[0])|;
    if t.tag.Range? {
      ArrowStands(s, e, t.tag);
    }
    OneReads(s, p, t.tag, TagsOf(t.subtype[0]), q, e);
    OneSubtype(t);
    assert |Closing(t.tag, true)| == if t.tag.Range? then 1 else 0;
  }

  lemma OneReads(s: string, p: nat, tag: Tag, kid: Tags, q: nat, e: nat)
    requires tag in {Set, List, Range} && StartsAt(s, p, Opening(tag, true)) && q == p + |Opening(tag, true)|
    requires ReadType(s, q) == Some((kid, e)) && (tag.Range? ==> CharAt(s, e) == '>')
    ensures ReadType(s, p) == Some((Tags(tag, [kid]), e + if tag.Range? then 1 else 0))
  {
    ReadOfIs(s, q, tag, kid, e);
    OpeningReads(s, p, tag);
  }

  lemma ArrowStands(s: string, e: nat, tag: Tag)
    requires IsContainer(tag) && StartsAt(s, e, Closing(tag, true)) && tag.Range?
    ensures CharAt(s, e) == '>'
  {
    assert s[e..e + 1][0] == '>';
  }

  lemma ReadOfIs(s: string, q: nat, tag: Tag, kid: Tags, e: nat)
    requires q <= |s| && ReadType(s, q) == Some((kid, e)) && (tag.Range? ==> CharAt(s, e) == '>')
    ensures ReadOf(s, q, tag, tag.Range?) == Some((Tags(tag, [kid]), e + if tag.Range? then 1 else 0))
  {
  }

  /** The word of a container leads to its case. */
  lemma OpeningReads(s: string, p: nat, tag: Tag)
    requires tag in {Set, List, Range} && StartsAt(s, p, Opening(tag, true))
    ensures ReadType(s, p) == ReadOf(s, p + |Opening(tag, true)|, tag, tag.Range?)
  {
    StartShows(s, p, Opening(tag, true));
    StartShows(s, p, "set of ");
    StartShows(s, p, "list of ");
  }

  lemma {:induction false} TupleReadsBack(s: string, p: nat, t: DType)
    requires Shaped(t) && t.tag.Tuple? && TypeStands(s, p, t)
    requires var body := TextFrom(t.subtype, 0, true);
             StartsAt(s, p, "tuple of (") && StartsAt(s, p + 10, body) && StartsAt(s, p + 10 + |body|, ")")
    ensures ReadsAs(s, p, t)
    decreases t, 1, 0
  {
    TupleOpeningReads(s, p);
    assert |LongText(t)| == 10 + |TextFrom(t.subtype, 0, true)| + 1;
    if t.subtype != [] {
      FirstOfKids(s, p + 10, t.subtype);
      CloserStands(s, p + 10 + |TextFrom(t.subtype, 0, true)|);
      KidsReadBack(s, p + 10, t.subtype, 0);
    }
    TupleReads(s, p + 10, t);
  }

  lemma TupleOpeningReads(s: string, p: nat)
    requires StartsAt(s, p, "tuple of (")
    ensures ReadType(s, p) == ReadTuple(s, p + 10)
  {
    StartShows(s, p, "tuple of (");
    StartShows(s, p, "set of ");
    StartShows(s, p, "list of ");
    StartShows(s, p, "range of ");
  }

  lemma CloserStands(s: string, e: nat)
    requires StartsAt(s, e, ")")
    ensures CharAt(s, e) == ')'
  {
    assert s[e..e + 1][0] == ')';
  }

  lemma TupleReads(s: string, p: nat, t: DType)
    requires t.tag.Tuple? && p <= |s| && StartsAt(s, p + |TextFrom(t.subtype, 0, true)|, ")")
    requires t.subtype != [] ==> CharAt(s, p) != ')'
    requires t.subtype != [] ==> KidsReadAs(s, p, t.subtype, 0)
    ensures ReadTuple(s, p) == Some((TagsOf(t), p + |TextFrom(t.subtype, 0, true)| + 1))
  {
    CloserStands(s, p + |TextFrom(t.subtype, 0, true)|);
    assert TagsFrom(t.subtype, 0) == TagsOf(t).kids;
  }

  function TagsFrom(ts: seq<DType>, i: nat): (r: seq<Tags>)
    requires i <= |ts|
    ensures |r| == |ts| - i && forall k :: 0 <= k < |r| ==> r[k] == TagsOf(ts[i + k])
    decreases |ts| - i
  {
    if i == |ts| then [] else [TagsOf(ts[i])] + TagsFrom(ts, i + 1)
  }

  /** A type's text does not start with the closer. */
  lemma FirstOfKids(s: string, p: nat, ts: seq<DType>)
    requires ts != [] && StartsAt(s, p, TextFrom(ts, 0, true))
    ensures CharAt(s, p) != ')'
  {
    var w := TypeText(ts[0], true);
    assert TextFrom(ts, 0, true) == w + ((if 1 == |ts| then "" else ", ") + TextFrom(ts, 1, true));
    SplitText(s, p, w, (if 1 == |ts| then "" else ", ") + TextFrom(ts, 1, true));
    assert s[p..p + |w|][0] == w[0];
    FirstCharacter(ts[0]);
  }

  lemma FirstCharacter(t: DType)
    ensures TypeText(t, true)[0] != ')'
  {
  }

  lemma {:induction false} KidsReadBack(s: string, p: nat, ts: seq<DType>, i: nat)
    requires i < |ts| && AllShaped(ts) && KidsStand(s, p, ts, i)
    ensures KidsReadAs(s, p, ts, i)
    decreases ts, 1, |ts| - i
  {
    KidReads(s, p, ts, i);
    if i + 1 < |ts| {
      NextKid(s, p, ts, i);
      KidsReadBack(s, p + |LongText(ts[i])| + 2, ts, i + 1);
      NextKidReads(s, p, ts, i);
    } else {
      LastKid(s, p, ts, i);
      LastKidReads(s, p, ts, i);
    }
  }

  lemma {:induction false} KidReads(s: string, p: nat, ts: seq<DType>, i: nat)
    requires i < |ts| && AllShaped(ts) && KidsStand(s, p, ts, i)
    ensures ReadsAs(s, p, ts[i])
    decreases ts, 0, 0
  {
    if i + 1 < |ts| {
      NextKid(s, p, ts, i);
    } else {
      LastKid(s, p, ts, i);
    }
    LongReadsBack(s, p, ts[i]);
  }

  lemma MoreKidsRead(s: string, p: nat, ts: seq<DType>, i: nat)
    requires i + 1 < |ts| && ReadsAs(s, p, ts[i]) && StartsAt(s, p + |LongText(ts[i])|, ", ")
    requires KidsReadAs(s, p + |LongText(ts[i])| + 2, ts, i + 1)
    requires |TextFrom(ts, i, true)| == |LongText(ts[i])| + 2 + |TextFrom(ts, i + 1, true)|
    ensures KidsReadAs(s, p, ts, i)
  {
    var q := p + |LongText(ts[i])|;
    var rest := ReadTypes(s, q + 2);
    ReadTypesIs(s, p, q, TagsOf(ts[i]), rest.value.0, rest.value.1);
  }

  lemma ReadTypesIs(s: string, p: nat, q: nat, kid: Tags, rest: seq<Tags>, e: nat)
    requires p <= |s| && q + 2 <= |s| && ReadType(s, p) == Some((kid, q)) && StartsAt(s, q, ", ")
    requires ReadTypes(s, q + 2) == Some((rest, e))
    ensures ReadTypes(s, p) == Some(([kid] + rest, e))
  {
  }

  lemma LastKidReads(s: string, p: nat, ts: seq<DType>, i: nat)
    requires i + 1 == |ts| && ReadsAs(s, p, ts[i]) && !StartsAt(s, p + |LongText(ts[i])|, ", ")
    requires |TextFrom(ts, i, true)| == |LongText(ts[i])|
    ensures KidsReadAs(s, p, ts, i)
  {
    assert TagsFrom(ts, i) == [TagsOf(ts[i])];
  }

  predicate AllShaped(ts: seq<DType>) {
    forall k :: 0 <= k < |ts| ==> Shaped(ts[k])
  }

  lemma NextKidReads(s: string, p: nat, ts: seq<DType>, i: nat)
    requires i + 1 < |ts| && KidsStand(s, p, ts, i) && ReadsAs(s, p, ts[i])
    requires KidsReadAs(s, p + |LongText(ts[i])| + 2, ts, i + 1)
    ensures KidsReadAs(s, p, ts, i)
  {
    NextKid(s, p, ts, i);
    MoreKidsRead(s, p, ts, i);
  }

  /** The texts from i on stand at p before the closer of their tuple. */
  predicate KidsStand(s: string, p: nat, ts: seq<DType>, i: nat)
    requires i <= |ts|
  {
    StartsAt(s, p, TextFrom(ts, i, true)) && CharAt(s, p + |TextFrom(ts, i, true)|) == ')'
  }

  lemma NextKid(s: string, p: nat, ts: seq<DType>, i: nat)
    requires i + 1 < |ts| && KidsStand(s, p, ts, i)
    ensures var w := LongText(ts[i]);
            && TypeStands(s, p, ts[i]) && StartsAt(s, p + |w|, ", ") && KidsStand(s, p + |w| + 2, ts, i + 1)
            && |TextFrom(ts, i, true)| == |w| + 2 + |TextFrom(ts, i + 1, true)|
  {
    var w, rest := LongText(ts[i]), TextFrom(ts, i + 1, true);
    assert TextFrom(ts, i, true) == w + (", " + rest);
    SplitText(s, p, w, ", " + rest);
    SplitText(s, p + |w|, ", ", rest);
    assert s[p + |w|..p + |w| + 2][0] == s[p + |w|];
  }

  lemma LastKid(s: string, p: nat, ts: seq<DType>, i: nat)
    requires i + 1 == |ts| && KidsStand(s, p, ts, i)
    ensures TypeStands(s, p, ts[i]) && !StartsAt(s, p + |LongText(ts[i])|, ", ")
    ensures |TextFrom(ts, i, true)| == |LongText(ts[i])|
  {
    assert TextFrom(ts, i + 1, true) == "" && TextFrom(ts, i, true) == LongText(ts[i]);
    StartShows(s, p + |LongText(ts[i])|, ", ");
  }

  /** The long text alone: two types with one long text have the same tags. */
  lemma LongIsUnambiguous(t: DType, u: DType)
    requires Shaped(t) && Shaped(u) && TypeText(t, true) == TypeText(u, true)
    ensures TagsOf(t) == TagsOf(u)
  {
    var s := LongText(t);
    assert s[0..|s|] == s;
    LongReadsBack(s, 0, t);
    LongReadsBack(s, 0, u);
  }
}
