/** When a failing parse leaves nothing behind, said of the string and the counts that it reads. */
module ParseLoss {
  import opened AdiakTypes
  import opened CHeap
  import opened TypeStrings
  import opened RoundTrip

  // ---------------------------------------------------------------- brackets

  /** The bracket opened at p is closed at e by its own closer, before anything that is open around it. */
  predicate IsClosedAt(s: string, p: nat, e: nat) {
    && p < e < |s| && s[e] == MatchingCloser(s[p]) && Depth(s[p..e + 1]) == 0
    && forall k :: p < k <= e ==> Depth(s[p..k]) >= 1
  }

  /** Every bracket in s has its own closer. */
  ghost predicate WellBracketed(s: string) {
    forall p: nat :: p < |s| && IsOpener(s[p]) ==> HasCloser(s, p)
  }

  ghost predicate HasCloser(s: string, p: nat) {
    exists e: nat :: IsClosedAt(s, p, e)
  }

  lemma OwnEndBrace(s: string, p: nat, e: nat, end: nat)
    requires IsClosedAt(s, p, e) && e < end <= |s|
    ensures EndBrace(s, MatchingCloser(s[p]), p, end) == Some(e)
  {
    var c := MatchingCloser(s[p]);
    forall k | p <= k < e ensures !Closes(s, c, p, k) {
      assert Depth(s[p..k + 1]) >= 1;
    }
    EndBraceIsFirst(s, c, p, end, Some(e));
  }

  /** A bracket inside another one is closed inside it. */
  lemma ClosedInside(s: string, q: nat, end: nat, p: nat, e: nat)
    requires IsClosedAt(s, q, end) && q < p < end && IsClosedAt(s, p, e)
    ensures e < end
  {
    if e >= end {
      assert s[q..end + 1] == s[q..p] + s[p..end + 1];
      DepthOfConcat(s[q..p], s[p..end + 1]);
    }
  }

  /** The window is the whole string from start on, or ends where a bracket before it is closed. */
  ghost predicate Inner(s: string, start: nat, end: nat) {
    Window(s, start, end) && (end == |s| || exists q: nat :: q < start && IsClosedAt(s, q, end))
  }

  lemma InnerLater(s: string, start: nat, end: nat, p: nat)
    requires Inner(s, start, end) && start <= p <= end
    ensures Inner(s, p, end)
  {
  }

  lemma ClosedInWindow(s: string, p: nat, end: nat) returns (e: nat)
    requires WellBracketed(s) && Inner(s, p, end) && p < end && IsOpener(s[p])
    ensures IsClosedAt(s, p, e) && e < end && EndBrace(s, MatchingCloser(s[p]), p, end) == Some(e)
    ensures Inner(s, p + 1, e)
  {
    assert HasCloser(s, p);
    e :| IsClosedAt(s, p, e);
    if end < |s| {
      var q: nat :| q < p && IsClosedAt(s, q, end);
      ClosedInside(s, q, end, p, e);
    }
    OwnEndBrace(s, p, e, end);
  }

  // ---------------------------------------------------------------- what a parse loses

  /** No count from the argument at index a on, up to b, is zero. */
  predicate NoneZero(dims: seq<nat>, a: nat, b: nat) {
    forall k :: a <= k < b ==> Arg(dims, k) > 0
  }

  /** If no count that has been read is zero, nothing is lost, and nothing will be when the result is freed. */
  predicate LosesNothing(dims: seq<nat>, ap: nat, r: Parsed) {
    ap <= r.ap && (NoneZero(dims, ap, r.ap) ==> r.lost == 0 && (r.t.Some? ==> EmptyTuples(r.t.value) == 0))
  }

  predicate KidsLoseNothing(dims: seq<nat>, ap: nat, r: ParsedKids) {
    ap <= r.ap &&
    (NoneZero(dims, ap, r.ap) ==> r.lost == 0 && (r.ts.Some? ==> EmptyTuplesInFirst(r.ts.value, |r.ts.value|) == 0))
  }

  lemma {:induction false} ParseLosesNothing(s: string, start: nat, end: nat, isReference: bool, dims: seq<nat>,
      ap: nat, next: nat)
    requires WellBracketed(s) && Inner(s, start, end)
    ensures LosesNothing(dims, ap, Parse(s, start, end, isReference, dims, ap, next))
    decreases end - start, 2, 0
  {
    if start < end {
      var p := SkipSeparators(s, start);
      SkipStaysInside(s, start, end);
      InnerLater(s, start, end, if At(s, p) == '&' then p + 1 else p);
      if At(s, p) == '&' {
        ParseAtLosesNothing(s, p + 1, end, true, dims, ap, next);
      } else {
        ParseAtLosesNothing(s, p, end, isReference, dims, ap, next);
      }
    }
  }

  lemma {:induction false} ParseAtLosesNothing(s: string, cur: nat, end: nat, isReference: bool, dims: seq<nat>,
      ap: nat, next: nat)
    requires WellBracketed(s) && Inner(s, cur, end)
    ensures LosesNothing(dims, ap, ParseAt(s, cur, end, isReference, dims, ap, next))
    decreases end - cur, 1, 0
  {
    if IsOpener(At(s, cur)) {
      var e := ClosedInWindow(s, cur, end);
      BracedLosesNothing(s, cur, e, end, isReference, dims, ap, next);
    }
  }

  lemma {:induction false} BracedLosesNothing(s: string, cur: nat, e: nat, end: nat, isReference: bool,
      dims: seq<nat>, ap: nat, next: nat)
    requires WellBracketed(s) && Window(s, cur, end) && cur < e < end && IsOpener(s[cur]) && Inner(s, cur + 1, e)
    requires EndBrace(s, MatchingCloser(s[cur]), cur, end) == Some(e)
    ensures LosesNothing(dims, ap, ParseBraced(s, cur, end, isReference, dims, ap, next))
    decreases end - cur, 0, 0
  {
    var (ap', n) := if s[cur] == '<' then (ap, 2) else (ap + 1, Arg(dims, ap));
    var kids := ParseComponents(s, cur, e, isReference, dims, ap', n);
    if s[cur] == '(' {
      KidsLose(s, cur + 1, e, isReference, dims, ap', n, []);
    } else {
      ParseLosesNothing(s, cur + 1, e, isReference, dims, ap', cur);
      OneKid(s, cur, e, isReference, dims, ap', n);
    }
    assert KidsLoseNothing(dims, ap', kids);
    if kids.ts.Some? {
      ContainerOfKids(BraceTag(s[cur]), n, isReference, kids.ts.value);
    }
  }

  lemma ContainerOfKids(tag: Tag, n: nat, isReference: bool, ts: seq<DType>)
    requires IsContainer(tag)
    ensures EmptyTuples(Container(tag, n, isReference, ts)) == if ts == [] then 1 else EmptyTuplesInFirst(ts, |ts|)
  {
  }

  lemma OneKid(s: string, cur: nat, e: nat, isReference: bool, dims: seq<nat>, ap: nat, n: nat)
    requires Window(s, cur + 1, e) && e < |s| && s[cur] != '('
    requires LosesNothing(dims, ap, Parse(s, cur + 1, e, isReference, dims, ap, cur))
    ensures KidsLoseNothing(dims, ap, ParseComponents(s, cur, e, isReference, dims, ap, n))
  {
    var sub := Parse(s, cur + 1, e, isReference, dims, ap, cur);
    if sub.t.Some? {
      var ts := [sub.t.value];
      assert EmptyTuplesInFirst(ts, 1) == EmptyTuplesInFirst(ts, 0) + EmptyTuples(ts[0]);
    }
  }

  lemma {:induction false} KidsLose(s: string, cur: nat, end: nat, isReference: bool, dims: seq<nat>, ap: nat, n: nat,
      done: seq<DType>)
    requires WellBracketed(s) && Inner(s, cur, end) && |done| <= n
    ensures var r := ParseKids(s, cur, end, isReference, dims, ap, n, done);
            ap <= r.ap && (EmptyTuplesInFirst(done, |done|) == 0 ==> KidsLoseNothing(dims, ap, r))
    decreases end - cur, 3, n - |done|
  {
    if |done| < n {
      var kid := Parse(s, cur, end, isReference, dims, ap, cur);
      ParseLosesNothing(s, cur, end, isReference, dims, ap, cur);
      if kid.t.Some? {
        FirstsAppend(done, kid.t.value, |done|);
        KidsLose(s, kid.next, end, isReference, dims, kid.ap, n, done + [kid.t.value]);
      }
    }
  }

  /** A parse of a string in which every bracket has its own closer leaves nothing behind, whether it fails or
      not, unless a count that it reads is zero. */
  lemma BracketedLosesNothing(s: string, dims: seq<nat>)
    requires CString(s) && WellBracketed(s)
    ensures var r := ParseString(s, dims);
            NoneZero(dims, 0, r.ap) ==> r.lost == 0 && (r.t.Some? ==> EmptyTuples(r.t.value) == 0)
  {
    ParseLosesNothing(s, 0, |s|, false, dims, 0, 0);
  }
}
