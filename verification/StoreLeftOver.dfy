/** How many blocks the library leaves behind: adiak_clean frees everything that a record or a tool owns,
    and what then remains is counted by the calls alone. */
module StoreLeftOver {
  import opened AdiakTypes
  import opened CHeap
  import opened TypeStrings
  import opened Layout
  import opened Views
  import opened DeepCopy
  import opened Records
  import opened Store
  import opened NameValue
  import opened StoreRuns
  import opened StoreReadBack
  import P = ParseLoss
  import L = Ledger

  /** How many blocks a call leaves behind for good: a failing call what the parser loses, a control event its
      value and its type, a registration the arrays of the empty tuples in its type. */
  function LeftBy(c: Call): nat {
    if c.CallRegister? then 0
    else if TypeOf(c).None? then (if c.CallNamevalue? then c.form.lost else 0)
    else if c.category == CONTROL then 1 + CopySpan(TypeOf(c).value) + Span(TypeOf(c).value)
    else EmptyTuples(TypeOf(c).value)
  }

  /** Two calls after which a clean does not free everything: a set without its bracket, and a number
      with a control event. */
  lemma SomeCallsLeaveBlocks(c: Call)
    requires c.CallNamevalue? && Written(c)
    ensures c.s == "[%d" ==> ResultOf(c) == -1 && LeftBy(c) == 1
    ensures c.s == "%d" && c.category == CONTROL ==> ResultOf(c) == 0 && LeftBy(c) == 1
  {
    if c.s == "[%d" {
      assert ScannedTag(c.s) == Set;
      assert EndBrace(c.s, ']', 0, 3) == None;
      assert ParseString(c.s, c.dims) == ParseBraced(c.s, 0, 3, false, c.dims, 0, 0);
    } else if c.s == "%d" {
      assert ScannedTag(c.s) == Int;
      assert ParseString(c.s, c.dims).t == Some(BASE_INT);
    }
  }

  /** Most calls leave nothing: an event that is not control, a type string in which every bracket has its own
      closer, no count of zero, and no struct timeval that the parser fails on. */
  lemma BracketedCallLeavesNothing(c: Call)
    requires c.CallNamevalue? && Written(c) && c.category != CONTROL
    requires P.WellBracketed(c.s) && P.NoneZero(c.dims, 0, ParseString(c.s, c.dims).ap)
    requires c.form.parsed.None? ==> !c.form.tag.Timeval?
    ensures LeftBy(c) == 0
  {
    P.BracketedLosesNothing(c.s, c.dims);
  }

  function TotalLeft(calls: seq<Call>, n: nat): nat
    requires n <= |calls|
  {
    if n == 0 then 0 else TotalLeft(calls, n - 1) + LeftBy(calls[n - 1])
  }

  /** The live blocks that no pointer leads to. */
  ghost function LostIn(b: L.Books, h: Heap): set<nat> {
    set p | p in h.objs && b.owner(p) == L.Lost
  }

  /** What will be lost when the first n entries are released. */
  function Pending(es: seq<Entry>, n: nat): nat
    requires n <= |es|
  {
    if n == 0 then 0 else Pending(es, n - 1) + EmptyTuples(es[n - 1].held.dtype)
  }

  ghost predicate AllShaped(es: seq<Entry>) {
    forall k :: 0 <= k < |es| ==> Shaped(es[k].held.dtype)
  }

  // ---------------------------------------------------------------- counting

  lemma {:induction false} PendingOfFirst(e: Entry, es: seq<Entry>, n: nat)
    requires n <= |es|
    ensures Pending([e] + es, n + 1) == EmptyTuples(e.held.dtype) + Pending(es, n)
  {
    if n > 0 {
      PendingOfFirst(e, es, n - 1);
    }
  }

  lemma {:induction false} PendingOfChanged(es: seq<Entry>, i: nat, e: Entry, n: nat)
    requires i < |es| && n <= |es|
    ensures i < n ==>
        Pending(es[i := e], n) + EmptyTuples(es[i].held.dtype) == Pending(es, n) + EmptyTuples(e.held.dtype)
    ensures n <= i ==> Pending(es[i := e], n) == Pending(es, n)
  {
    if n > 0 {
      PendingOfChanged(es, i, e, n - 1);
    }
  }

  lemma {:induction false} RangeSize(lo: nat, n: nat)
    ensures |BlocksFrom(lo, lo + n)| == n
  {
    if n == 0 {
      assert BlocksFrom(lo, lo) == {};
    } else {
      RangeSize(lo, n - 1);
      assert BlocksFrom(lo, lo + n) == BlocksFrom(lo, lo + n - 1) + {lo + n - 1};
    }
  }

  /** The blocks of a type and a value, counted. */
  lemma HandleSize(h0: Heap, x: Handle, h: Heap)
    requires L.Prepared(h0, x, h)
    ensures |NewBlocks(h0, h)| == 1 + CopySpan(x.dtype) + Span(x.dtype)
  {
    SpanOfPlaced(x.dtype, x.value, x.base);
    RangeSize(h0.next, h.next - h0.next);
    assert h0.Valid();
    forall p: nat ensures p in NewBlocks(h0, h) <==> p in BlocksFrom(h0.next, h.next) {
      assert p in h.objs <==> p in h0.objs || h0.next <= p < h.next;
      assert p in h0.objs ==> p < h0.next;
      assert IsFrom(h0.next, p, h.next) <==> h0.next <= p < h.next;
    }
    assert NewBlocks(h0, h) == BlocksFrom(h0.next, h.next);
  }

  lemma LostIsOwner(b: L.Books, h: Heap, p: nat)
    requires Accounted(b, h)
    ensures p in LostIn(b, h) <==> b.owner(p) == L.Lost
  {
  }

  lemma LostAfterRegister(a: Snap, c: Call, b: Snap)
    requires Accounted(a.books, a.heap) && Accounted(b.books, b.heap) && c.CallRegister? && Registers(a, c, b)
    ensures LostIn(b.books, b.heap) == LostIn(a.books, a.heap)
  {
  }

  lemma LostAfterLeaving(a: Snap, b: Snap)
    requires Accounted(a.books, a.heap) && Accounted(b.books, b.heap) && LeavesBehind(a, b)
    ensures |LostIn(b.books, b.heap)| == |LostIn(a.books, a.heap)| + |NewBlocks(a.heap, b.heap)|
  {
    assert LostIn(b.books, b.heap) == LostIn(a.books, a.heap) + NewBlocks(a.heap, b.heap);
    assert LostIn(a.books, a.heap) !! NewBlocks(a.heap, b.heap);
  }

  lemma LostAfterAdding(a: Snap, x: Handle, h: Heap, o: L.Owned, b: Snap)
    requires Accounted(a.books, a.heap) && Accounted(b.books, b.heap) && L.Prepared(a.heap, x, h)
    requires L.Adds(AdoptedBooks(a.books, a.heap, h), o, b.books)
    ensures LostIn(b.books, b.heap) == LostIn(a.books, a.heap)
  {
  }

  /** What an overwrite loses. */
  lemma LostOwnerAfterReplacing(a: Snap, x: Handle, h: Heap, i: nat, o: L.Owned, b: Snap, p: nat)
    requires Accounted(a.books, a.heap) && L.Prepared(a.heap, x, h) && o.held == x
    requires L.Replaces(AdoptedBooks(a.books, a.heap, h), i, o, b.books)
    ensures L.Leaks(a.books.records[i], p) ==> a.books.owner(p) == L.OfRecord(a.books.records[i].self)
    ensures b.books.owner(p) == L.Lost <==> a.books.owner(p) == L.Lost || L.Leaks(a.books.records[i], p)
  {
    var was := a.books.records[i];
    assert L.RecordOk(a.books.owner, was);
    LostIsWithin(was.held.dtype, was.held.typeAt, p);
    if L.Leaks(was, p) {
      assert L.InHandle(was.held, p) && L.Owns(was, p);
      assert !L.Owns(o, p);
    }
  }

  lemma LostAfterReplacing(a: Snap, x: Handle, h: Heap, i: nat, o: L.Owned, b: Snap)
    requires Accounted(a.books, a.heap) && Accounted(b.books, b.heap) && L.Prepared(a.heap, x, h) && o.held == x
    requires L.Replaces(AdoptedBooks(a.books, a.heap, h), i, o, b.books)
    requires Shaped(a.books.records[i].held.dtype)
    ensures |LostIn(b.books, b.heap)| == |LostIn(a.books, a.heap)| + EmptyTuples(a.books.records[i].held.dtype)
  {
    var was := a.books.records[i].held;
    var leaks := LostBlocks(was.dtype, was.typeAt);
    LostIsEmptyTuples(was.dtype, was.typeAt);
    forall p: nat
      ensures p in LostIn(b.books, b.heap) <==> p in LostIn(a.books, a.heap) || p in leaks
      ensures p in leaks ==> p !in LostIn(a.books, a.heap)
    {
      LostOwnerAfterReplacing(a, x, h, i, o, b, p);
      LostIsWithin(was.dtype, was.typeAt, p);
      LostIsOwner(a.books, a.heap, p);
      LostIsOwner(b.books, b.heap, p);
    }
    UnionSize(LostIn(a.books, a.heap), leaks, LostIn(b.books, b.heap));
  }

  lemma UnionSize(xs: set<nat>, ys: set<nat>, zs: set<nat>)
    requires forall p: nat :: p in zs <==> p in xs || p in ys
    requires forall p: nat :: p in ys ==> p !in xs
    ensures |zs| == |xs| + |ys|
  {
    assert zs == xs + ys && xs !! ys;
  }

  // ---------------------------------------------------------------- over whole runs

  /** The blocks lost so far and those that the records will lose are what the calls leave behind. */
  ghost predicate Balances(a: Snap, calls: seq<Call>, n: nat)
    requires n <= |calls|
  {
    && Aligned(a) && AllShaped(a.entries)
    && |LostIn(a.books, a.heap)| + Pending(a.entries, |a.entries|) == TotalLeft(calls, n)
  }

  lemma RecordingBalances(a: Snap, c: Call, x: Handle, h: Heap, b: Snap)
    requires Accounted(a.books, a.heap) && Accounted(b.books, b.heap) && Aligned(a) && AllShaped(a.entries)
    requires !c.CallRegister? && Keeps(a, c, x, h, b) && L.Prepared(a.heap, x, h) && Shaped(x.dtype)
    ensures AllShaped(b.entries)
    ensures |LostIn(b.books, b.heap)| + Pending(b.entries, |b.entries|)
         == |LostIn(a.books, a.heap)| + Pending(a.entries, |a.entries|) + EmptyTuples(x.dtype)
  {
    var i, e := IndexOf(a.entries, c.name, 0), EntryOf(c, x);
    if i < |a.entries| {
      assert HeldAt(a, i);
      LostAfterReplacing(a, x, h, i, b.books.records[i], b);
      PendingOfChanged(a.entries, i, e, |a.entries|);
    } else {
      LostAfterAdding(a, x, h, b.books.records[0], b);
      PendingOfFirst(e, a.entries, |a.entries|);
    }
  }

  lemma CallBalances(mem: seq<Byte>, objs: Objs, a: Snap, c: Call, o: Outcome, b: Snap)
    requires Accounted(a.books, a.heap) && Makes(mem, objs, a, c, o, b) && Aligned(a) && AllShaped(a.entries)
    requires SoundCall(c)
    ensures AllShaped(b.entries)
    ensures |LostIn(b.books, b.heap)| + Pending(b.entries, |b.entries|)
         == |LostIn(a.books, a.heap)| + Pending(a.entries, |a.entries|) + LeftBy(c)
  {
    match o
    case Enlisted => LostAfterRegister(a, c, b);
    case Failed => LostAfterLeaving(a, b);
    case Told(x) =>
      LostAfterLeaving(a, b);
      HandleSize(a.heap, x, b.heap);
    case Kept(x, h) => RecordingBalances(a, c, x, h, b);
  }

  lemma NextBalances(mem: seq<Byte>, heap: Heap, ss: seq<Snap>, calls: seq<Call>, os: seq<Outcome>, n: nat)
    requires IsTrace(mem, heap, ss, calls, os) && n < |calls| && Balances(ss[n], calls, n)
    requires SoundCall(calls[n])
    ensures Balances(ss[n + 1], calls, n + 1)
  {
    TraceKeeps(mem, heap, ss, calls, os, n);
    assert MakesAt(mem, heap.objs, ss, calls, os, n);
    CallBalances(mem, heap.objs, ss[n], calls[n], os[n], ss[n + 1]);
    NextAligned(mem, heap.objs, ss, calls, os, n);
  }

  lemma {:induction false} RunBalances(mem: seq<Byte>, heap: Heap, ss: seq<Snap>, calls: seq<Call>, os: seq<Outcome>,
      n: nat)
    requires IsTrace(mem, heap, ss, calls, os) && n <= |calls|
    requires forall i :: 0 <= i < |calls| ==> SoundCall(calls[i])
    ensures Balances(ss[n], calls, n)
  {
    if n == 0 {
      assert LostIn(ss[0].books, ss[0].heap) == {};
    } else {
      RunBalances(mem, heap, ss, calls, os, n - 1);
      NextBalances(mem, heap, ss, calls, os, n - 1);
    }
  }

  // ---------------------------------------------------------------- after the clean

  /** The blocks that the first n records lose when they are released. */
  ghost function LostOfFirst(os: seq<L.Owned>, n: nat): set<nat>
    requires n <= |os|
  {
    if n == 0 then {} else LostOfFirst(os, n - 1) + LostBlocks(os[n - 1].held.dtype, os[n - 1].held.typeAt)
  }

  lemma {:induction false} InLostOfFirst(os: seq<L.Owned>, n: nat, p: nat)
    requires n <= |os|
    ensures p in LostOfFirst(os, n) <==> exists k :: 0 <= k < n && L.Leaks(os[k], p)
  {
    if n > 0 {
      InLostOfFirst(os, n - 1, p);
      LostIsWithin(os[n - 1].held.dtype, os[n - 1].held.typeAt, p);
    }
  }

  ghost predicate NewLossAt(os: seq<L.Owned>, k: nat)
    requires k < |os|
  {
    forall p: nat :: p in LostBlocks(os[k].held.dtype, os[k].held.typeAt) ==> p !in LostOfFirst(os, k)
  }

  lemma LossesAreNew(b: L.Books, k: nat)
    requires L.Balanced(b) && k < |b.records|
    ensures NewLossAt(b.records, k)
  {
    forall p: nat | p in LostBlocks(b.records[k].held.dtype, b.records[k].held.typeAt)
      ensures p !in LostOfFirst(b.records, k)
    {
      InLostOfFirst(b.records, k, p);
      NotOfAnother(b, k, p);
    }
  }

  lemma {:induction false} LostOfFirstSize(os: seq<L.Owned>, es: seq<Entry>, n: nat)
    requires n <= |es| == |os| && forall k: nat :: k < n ==> LosesAt(os, es, k) && NewLossAt(os, k)
    ensures |LostOfFirst(os, n)| == Pending(es, n)
  {
    if n > 0 {
      LostOfFirstSize(os, es, n - 1);
      assert LosesAt(os, es, n - 1) && NewLossAt(os, n - 1);
      UnionSize(LostOfFirst(os, n - 1), LostBlocks(os[n - 1].held.dtype, os[n - 1].held.typeAt), LostOfFirst(os, n));
    }
  }

  ghost predicate LosesAt(os: seq<L.Owned>, es: seq<Entry>, k: nat)
    requires k < |es| == |os|
  {
    |LostBlocks(os[k].held.dtype, os[k].held.typeAt)| == EmptyTuples(es[k].held.dtype)
  }

  lemma NotOfAnother(b: L.Books, i: nat, p: nat)
    requires L.Balanced(b) && i < |b.records| && L.Leaks(b.records[i], p)
    ensures forall k :: 0 <= k < |b.records| && k != i ==> !L.Leaks(b.records[k], p)
  {
    LeaksAreHeld(b.records[i]);
    forall k: nat | k < |b.records| && k != i ensures !L.Leaks(b.records[k], p) {
      LeaksAreHeld(b.records[k]);
      OneOwner(b, i, k, p);
    }
  }

  lemma LossesSize(a: Snap)
    requires Accounted(a.books, a.heap) && Aligned(a) && AllShaped(a.entries)
    ensures |LostOfFirst(a.books.records, |a.books.records|)| == Pending(a.entries, |a.entries|)
  {
    var os := a.books.records;
    forall k: nat | k < |os| ensures LosesAt(os, a.entries, k) && NewLossAt(os, k) {
      assert HeldAt(a, k);
      LostIsEmptyTuples(os[k].held.dtype, os[k].held.typeAt);
      LossesAreNew(a.books, k);
    }
    LostOfFirstSize(os, a.entries, |os|);
  }

  /** The clean loses what the records were going to lose. */
  lemma LostAfterClean(a: Snap, c: L.Books, h: Heap)
    requires Accounted(a.books, a.heap) && Accounted(c, h) && Aligned(a) && AllShaped(a.entries) && L.Cleans(a.books, c)
    ensures |LostIn(c, h)| == |LostIn(a.books, a.heap)| + Pending(a.entries, |a.entries|)
  {
    var n := |a.books.records|;
    LossesSize(a);
    forall p: nat
      ensures p in LostIn(c, h) <==> p in LostIn(a.books, a.heap) || p in LostOfFirst(a.books.records, n)
      ensures p in LostOfFirst(a.books.records, n) ==> p !in LostIn(a.books, a.heap)
    {
      LostOwnerAfterClean(a, c, p);
      LostIsOwner(a.books, a.heap, p);
      LostIsOwner(c, h, p);
    }
    UnionSize(LostIn(a.books, a.heap), LostOfFirst(a.books.records, n), LostIn(c, h));
  }

  lemma LostOwnerAfterClean(a: Snap, c: L.Books, p: nat)
    requires Accounted(a.books, a.heap) && L.Cleans(a.books, c)
    ensures p in LostOfFirst(a.books.records, |a.books.records|) ==> a.books.owner(p).OfRecord?
    ensures c.owner(p) == L.Lost <==> a.books.owner(p) == L.Lost || p in LostOfFirst(a.books.records, |a.books.records|)
  {
    var os := a.books.records;
    assert L.CleanOwner(a.books, a.books.owner(p), p, c.owner(p));
    InLostOfFirst(os, |os|, p);
    if k: nat :| k < |os| && L.Leaks(os[k], p) {
      LeaksAreHeld(os[k]);
      assert L.RecordOk(a.books.owner, os[k]) && L.Owns(os[k], p);
    }
  }

  /** Nothing but what was there before the first call is the caller's: what a call allocates it hands over
      or leaves behind. */
  ghost predicate UsersOnly(objs: Objs, a: Snap) {
    forall p: nat :: a.books.owner(p).User? ==> p in objs
  }

  lemma RecordingKeepsOnly(objs: Objs, a: Snap, c: Call, x: Handle, h: Heap, b: Snap)
    requires !c.CallRegister? && Keeps(a, c, x, h, b) && L.Prepared(a.heap, x, h) && UsersOnly(objs, a)
    ensures UsersOnly(objs, b)
  {
    forall p: nat | b.books.owner(p).User? ensures p in objs {
      assert p in NewBlocks(a.heap, h) ==> L.InHandle(x, p);
    }
  }

  lemma NextKeepsOnly(mem: seq<Byte>, objs: Objs, ss: seq<Snap>, calls: seq<Call>, os: seq<Outcome>, n: nat)
    requires Steps(mem, objs, ss, calls, os) && n < |calls| && UsersOnly(objs, ss[n])
    ensures UsersOnly(objs, ss[n + 1])
  {
    assert MakesAt(mem, objs, ss, calls, os, n);
    if os[n].Kept? {
      RecordingKeepsOnly(objs, ss[n], calls[n], os[n].x, os[n].h, ss[n + 1]);
    }
  }

  lemma {:induction false} RunKeepsOnly(mem: seq<Byte>, objs: Objs, ss: seq<Snap>, calls: seq<Call>, os: seq<Outcome>,
      n: nat)
    requires Steps(mem, objs, ss, calls, os) && n <= |calls| && UsersOnly(objs, ss[0])
    ensures UsersOnly(objs, ss[n])
  {
    if n > 0 {
      RunKeepsOnly(mem, objs, ss, calls, os, n - 1);
      NextKeepsOnly(mem, objs, ss, calls, os, n - 1);
    }
  }

  lemma {:induction false} NothingLeftByAny(calls: seq<Call>, n: nat)
    requires n <= |calls|
    ensures TotalLeft(calls, n) == 0 <==> forall i :: 0 <= i < n ==> LeftBy(calls[i]) == 0
  {
    if n > 0 {
      NothingLeftByAny(calls, n - 1);
    }
  }

  /** After the clean there is what the caller had before, unchanged, and what the calls left behind. */
  ghost predicate CleanHeap(heap: Heap, calls: seq<Call>, h: Heap) {
    && Extends(heap.objs, h.objs) && |h.objs| == |heap.objs| + TotalLeft(calls, |calls|)
    && (h.objs == heap.objs <==> forall i :: 0 <= i < |calls| ==> LeftBy(calls[i]) == 0)
  }

  lemma HeapAfterClean(mem: seq<Byte>, heap: Heap, ss: seq<Snap>, calls: seq<Call>, os: seq<Outcome>, c: L.Books,
      h: Heap)
    requires IsTrace(mem, heap, ss, calls, os)
    requires forall i :: 0 <= i < |calls| ==> SoundCall(calls[i])
    requires Accounted(c, h) && L.Cleans(ss[|calls|].books, c) && ss[|calls|].heap.Keeps(h)
    ensures CleanHeap(heap, calls, h)
  {
    var a := ss[|calls|];
    TraceKeeps(mem, heap, ss, calls, os, |calls|);
    assert UsersOnly(heap.objs, ss[0]);
    RunKeepsOnly(mem, heap.objs, ss, calls, os, |calls|);
    RunBalances(mem, heap, ss, calls, os, |calls|);
    LostAfterClean(a, c, h);
    NothingLeftByAny(calls, |calls|);
    OnlyUsersAndLost(heap.objs, a, c, h);
  }

  lemma OnlyUsersAndLost(objs: Objs, a: Snap, c: L.Books, h: Heap)
    requires Accounted(a.books, a.heap) && Accounted(c, h) && L.Cleans(a.books, c) && a.heap.Keeps(h)
    requires UsersKept(objs, a) && UsersOnly(objs, a)
    ensures Extends(objs, h.objs) && |h.objs| == |objs| + |LostIn(c, h)|
    ensures h.objs == objs <==> LostIn(c, h) == {}
  {
    forall p: nat
      ensures p in h.objs <==> p in objs || p in LostIn(c, h)
      ensures p in objs ==> p !in LostIn(c, h) && p in h.objs && h.objs[p] == objs[p]
    {
      assert L.CleanOwner(a.books, a.books.owner(p), p, c.owner(p));
    }
    UnionSize(objs.Keys, LostIn(c, h), h.objs.Keys);
    KeysSize(objs);
    KeysSize(h.objs);
  }

  lemma {:induction false} KeysSize(objs: Objs)
    ensures |objs.Keys| == |objs|
    decreases |objs|
  {
    if objs != map[] {
      var p :| p in objs;
      KeysSize(objs - {p});
      assert objs.Keys == (objs - {p}).Keys + {p};
      assert objs == (objs - {p})[p := objs[p]];
    }
  }

  /** Any calls, and then adiak_clean: the caller's blocks are as they were, and the number of other blocks
      that are still live is the sum of what the calls left behind, by LeftBy of each. */
  method RunAndClean(calls: seq<Call>, mem: seq<Byte>, reportable: bool, heap: Heap)
    returns (store: Adiak, results: seq<int>, ghost ss: seq<Snap>, ghost os: seq<Outcome>)
    requires heap.Valid() && forall i :: 0 <= i < |calls| ==> Written(calls[i]) && Possible(calls[i], mem, heap.objs)
    ensures fresh(store) && store.Valid() && !store.toolListSet && store.entries == [] && store.tools == []
    ensures IsTrace(mem, heap, ss, calls, os) && CleanHeap(heap, calls, store.heap)
    ensures |results| == |calls| && forall i :: 0 <= i < |calls| ==> results[i] == ResultOf(calls[i])
  {
    store, results, ss, os := Run(calls, mem, reportable, heap);
    CallsAreSound(calls);
    store.Clean();
    HeapAfterClean(mem, heap, ss, calls, os, store.books, store.heap);
  }
}
