/** Whole runs of the library: any sequence of calls of adiak_register, adiak_namevalue and adiak::value on one
    store. */
module StoreRuns {
  import opened AdiakTypes
  import opened CHeap
  import opened TypeStrings
  import opened Layout
  import opened Views
  import opened DeepCopy
  import opened Records
  import opened Store
  import opened NameValue
  import opened CppValue
  import D = Dispatch
  import L = Ledger

  // ---------------------------------------------------------------- calls

  datatype Call =
    | CallRegister(category: int, plain: bool, withInfo: bool, onAllRanks: bool)
    | CallNamevalue(name: string, category: int, subcategory: Option<string>, s: string, dims: seq<nat>, form: Form,
        arg: Arg, now: int)
    | CallValue(name: string, category: int, subcategory: Option<string>, obj: Object, now: int)

  /** The form of the call is that of its type string, or that of its C++ object; adiak::value always passes a
      subcategory. */
  predicate Written(c: Call) {
    && (c.CallNamevalue? ==> CString(c.s) && c.form == FormOf(c.s, c.dims))
    && (c.CallValue? ==> IsObject(c.obj) && c.subcategory.Some?)
  }

  /** A program can make the call when objs is its own part of the heap. */
  predicate Possible(c: Call, mem: seq<Byte>, objs: Objs) {
    c.CallNamevalue? ==> Callable(c.form, c.arg, mem, objs)
  }

  /** The type of the value, if there is one. */
  function TypeOf(c: Call): Option<DType> {
    match c
    case CallRegister(_, _, _, _) => None
    case CallNamevalue(_, _, _, _, _, form, _, _) => form.parsed
    case CallValue(_, _, _, obj, _) => Some(obj.dtype)
  }

  /** x is what the call hands over: its type and a value that shows what the caller passed. */
  ghost predicate Gives(c: Call, mem: seq<Byte>, objs: Objs, h0: Heap, x: Handle, h: Heap) {
    && L.Prepared(h0, x, h) && TypeOf(c) == Some(x.dtype)
    && (c.CallNamevalue? ==> Handed(c.arg, mem, objs, x.dtype, h0, x, h))
    && (c.CallValue? ==> Shows(c.obj, mem, objs, h0, x, h))
  }

  /** A store at one moment. */
  datatype Snap = Snap(entries: seq<Entry>, tools: seq<D.ToolInfo>, log: seq<D.Call>, books: L.Books, heap: Heap,
    reportable: bool)

  ghost function Now(a: Adiak): Snap
    reads a`entries, a`tools, a`log, a`books, a`heap, a`reportableRank
  {
    Snap(a.entries, InfosOf(a.tools), a.log, a.books, a.heap, a.reportableRank)
  }

  /** What came of a call: a registered tool, -1, an event that is not recorded, or an entry; h is the heap
      with the blocks of x before they are handed over. */
  datatype Outcome = Enlisted | Failed | Told(x: Handle) | Kept(x: Handle, h: Heap)

  function EntryOf(c: Call, x: Handle): Entry
    requires !c.CallRegister?
  {
    Entry(c.name, c.category, c.subcategory, x)
  }

  /** The tool that a call registers: it is known by the next block of the heap. */
  function ToolOf(a: Snap, c: Call): D.ToolInfo
    requires c.CallRegister?
  {
    D.ToolInfo(a.heap.next, c.category, c.onAllRanks, c.plain, c.withInfo)
  }

  ghost predicate Registers(a: Snap, c: Call, b: Snap)
    requires c.CallRegister?
  {
    && b.entries == a.entries && b.log == a.log && b.reportable == a.reportable && a.heap.Keeps(b.heap)
    && b.tools == [ToolOf(a, c)] + a.tools
    && L.Registers(a.books, a.heap.next, b.books)
  }

  /** The new blocks of b are left behind. */
  ghost predicate LeavesBehind(a: Snap, b: Snap) {
    && b.entries == a.entries && b.tools == a.tools && b.reportable == a.reportable && a.heap.ExtendedBy(b.heap)
    && b.books == AbandonedBooks(a.books, a.heap, b.heap)
  }

  /** The tools hear of the event. */
  ghost predicate Tells(a: Snap, c: Call, x: Handle, b: Snap)
    requires !c.CallRegister?
  {
    b.log == a.log + D.Dispatched(a.tools, EventOf(c.name, c.category, c.subcategory, x, c.now), a.reportable, 0)
  }

  ghost predicate Keeps(a: Snap, c: Call, x: Handle, h: Heap, b: Snap)
    requires !c.CallRegister?
  {
    && b.tools == a.tools && b.reportable == a.reportable && h.Keeps(b.heap)
    && b.entries == Upsert(a.entries, EntryOf(c, x))
    && Recorded(a.entries, EntryOf(c, x), AdoptedBooks(a.books, a.heap, h), b.books)
  }

  /** What call c makes of a. */
  ghost predicate Makes(mem: seq<Byte>, objs: Objs, a: Snap, c: Call, o: Outcome, b: Snap) {
    && Accounted(b.books, b.heap)
    && match o
       case Enlisted => c.CallRegister? && Registers(a, c, b)
       case Failed =>
         && c.CallNamevalue? && c.form.parsed.None? && LeavesBehind(a, b) && b.log == a.log
         && |NewBlocks(a.heap, b.heap)| == c.form.lost
       case Told(x) =>
         && TypeOf(c).Some? && c.category == CONTROL && LeavesBehind(a, b) && Tells(a, c, x, b)
         && Gives(c, mem, objs, a.heap, x, b.heap)
       case Kept(x, h) =>
         && TypeOf(c).Some? && c.category != CONTROL && Keeps(a, c, x, h, b) && Tells(a, c, x, b)
         && Gives(c, mem, objs, a.heap, x, h)
  }

  // ---------------------------------------------------------------- making the calls

  lemma NewBlocksAre(h0: Heap, lost: set<nat>, h: Heap)
    requires h0.Grows(lost, h)
    ensures NewBlocks(h0, h) == lost
  {
  }

  lemma ReadyToHand(b: L.Books, h0: Heap, x: Handle, h: Heap)
    requires Accounted(b, h0) && L.Prepared(h0, x, h)
    ensures L.HandedOver(AdoptedBooks(b, h0, h), x)
  {
  }

  /** adiak_namevalue when the scan or the parse fails: what has been allocated is left behind. */
  method NamevalueFails(store: Adiak, c: Call, mem: seq<Byte>, ghost objs: Objs, h: Heap, ghost lost: set<nat>)
    returns (ghost o: Outcome)
    requires c.CallNamevalue? && store.Valid() && c.form.parsed.None?
    requires store.heap.Grows(lost, h) && |lost| == c.form.lost
    modifies store`heap, store`books
    ensures store.Valid() && Makes(mem, objs, old(Now(store)), c, o, Now(store))
  {
    NewBlocksAre(store.heap, lost, h);
    store.Abandon(h);
    o := Failed;
  }

  /** A control event: nobody keeps the type and the value. */
  method Tell(store: Adiak, c: Call, mem: seq<Byte>, ghost objs: Objs, x: Handle, h: Heap) returns (ghost o: Outcome)
    requires TypeOf(c).Some? && store.Valid() && store.toolListSet
    requires c.category == CONTROL && Gives(c, mem, objs, store.heap, x, h)
    modifies store`heap, store`books, store`entries, store`recs, store`sharedRecordList, store`log, store.recordHash,
        store.recs
    ensures store.Valid() && Makes(mem, objs, old(Now(store)), c, o, Now(store))
    ensures forall k :: 0 <= k < |store.recs| ==> store.recs[k] in old(store.recs) || fresh(store.recs[k])
  {
    store.Abandon(h);
    store.RawNamevalue(c.name, c.category, c.subcategory, x, c.now);
    o := Told(x);
  }

  /** Any other event: type and value are handed over and recorded. */
  method HandOver(store: Adiak, c: Call, mem: seq<Byte>, ghost objs: Objs, x: Handle, h: Heap)
    returns (ghost o: Outcome)
    requires TypeOf(c).Some? && store.Valid() && store.toolListSet
    requires c.category != CONTROL && Gives(c, mem, objs, store.heap, x, h)
    modifies store`heap, store`books, store`entries, store`recs, store`sharedRecordList, store`log, store.recordHash,
        store.recs
    ensures store.Valid() && Makes(mem, objs, old(Now(store)), c, o, Now(store))
    ensures forall k :: 0 <= k < |store.recs| ==> store.recs[k] in old(store.recs) || fresh(store.recs[k])
  {
    ghost var a := Now(store);
    ReadyToHand(store.books, store.heap, x, h);
    store.Adopt(h);
    store.RawNamevalue(c.name, c.category, c.subcategory, x, c.now);
    o := Kept(x, h);
    KeepingMakes(mem, objs, a, c, x, h, Now(store));
  }

  lemma KeepingMakes(mem: seq<Byte>, objs: Objs, a: Snap, c: Call, x: Handle, h: Heap, b: Snap)
    requires TypeOf(c).Some? && c.category != CONTROL && Gives(c, mem, objs, a.heap, x, h)
    requires Accounted(b.books, b.heap) && Keeps(a, c, x, h, b) && Tells(a, c, x, b)
    ensures Makes(mem, objs, a, c, Kept(x, h), b)
  {
  }

  /** The call of adiak_raw_namevalue. */
  method Raise(store: Adiak, c: Call, mem: seq<Byte>, ghost objs: Objs, x: Handle, h: Heap) returns (ghost o: Outcome)
    requires TypeOf(c).Some? && store.Valid() && store.toolListSet && Gives(c, mem, objs, store.heap, x, h)
    modifies store`heap, store`books, store`entries, store`recs, store`sharedRecordList, store`log, store.recordHash,
        store.recs
    ensures store.Valid() && Makes(mem, objs, old(Now(store)), c, o, Now(store))
    ensures forall k :: 0 <= k < |store.recs| ==> store.recs[k] in old(store.recs) || fresh(store.recs[k])
  {
    if c.category == CONTROL {
      o := Tell(store, c, mem, objs, x, h);
    } else {
      o := HandOver(store, c, mem, objs, x, h);
    }
  }

  /** adiak_namevalue */
  method Namevalue(store: Adiak, c: Call, mem: seq<Byte>, ghost objs: Objs) returns (result: int, ghost o: Outcome)
    requires c.CallNamevalue? && store.Valid() && store.toolListSet
    requires Written(c) && Possible(c, mem, objs) && Extends(objs, store.heap.objs)
    modifies store`heap, store`books, store`entries, store`recs, store`sharedRecordList, store`log, store.recordHash,
        store.recs
    ensures store.Valid()
    ensures forall k :: 0 <= k < |store.recs| ==> store.recs[k] in old(store.recs) || fresh(store.recs[k])
    ensures Makes(mem, objs, old(Now(store)), c, o, Now(store))
    ensures result == ResultOf(c)
  {
    var r, h;
    ghost var lost;
    r, h, lost := Prepare(c.s, c.dims, c.arg, mem, objs, store.heap);
    if r.None? {
      o := NamevalueFails(store, c, mem, objs, h, lost);
      return -1, o;
    }
    o := Raise(store, c, mem, objs, r.value, h);
    result := 0;
  }

  /** adiak::value */
  method CppNamevalue(store: Adiak, c: Call, mem: seq<Byte>, ghost objs: Objs) returns (result: int, ghost o: Outcome)
    requires c.CallValue? && store.Valid() && store.toolListSet && Written(c)
    modifies store`heap, store`books, store`entries, store`recs, store`sharedRecordList, store`log, store.recordHash,
        store.recs
    ensures store.Valid()
    ensures forall k :: 0 <= k < |store.recs| ==> store.recs[k] in old(store.recs) || fresh(store.recs[k])
    ensures Makes(mem, objs, old(Now(store)), c, o, Now(store))
    ensures result == ResultOf(c)
  {
    var x, h := ValueOf(c.obj.c, c.obj.d, mem, objs, store.heap);
    o := Raise(store, c, mem, objs, x, h);
    result := 0;
  }

  // ---------------------------------------------------------------- runs

  /** The caller's blocks are still there, with the same content, and still the caller's. */
  ghost predicate UsersKept(objs: Objs, a: Snap) {
    Extends(objs, a.heap.objs) && forall p :: p in objs ==> a.books.owner(p).User?
  }

  lemma CallKeepsUsers(mem: seq<Byte>, objs: Objs, a: Snap, c: Call, o: Outcome, b: Snap)
    requires Accounted(a.books, a.heap) && Makes(mem, objs, a, c, o, b) && UsersKept(objs, a)
    ensures UsersKept(objs, b)
  {
    if o.Kept? {
      KeptKeepsUsers(objs, a, c, o.x, o.h, b);
    }
  }

  lemma KeptKeepsUsers(objs: Objs, a: Snap, c: Call, x: Handle, h: Heap, b: Snap)
    requires !c.CallRegister? && Accounted(a.books, a.heap) && Accounted(b.books, b.heap)
    requires Keeps(a, c, x, h, b) && L.Prepared(a.heap, x, h) && UsersKept(objs, a)
    ensures UsersKept(objs, b)
  {
    forall p | p in objs ensures b.books.owner(p).User? {
      UserStays(a, c, x, h, b, p);
    }
  }

  /** A block of the caller's stays the caller's when something else is handed over. */
  lemma UserStays(a: Snap, c: Call, x: Handle, h: Heap, b: Snap, p: nat)
    requires !c.CallRegister? && Accounted(a.books, a.heap) && Keeps(a, c, x, h, b) && L.Prepared(a.heap, x, h)
    requires a.books.owner(p).User?
    ensures b.books.owner(p).User?
  {
    var i := IndexOf(a.entries, c.name, 0);
    if i < |a.entries| {
      assert L.RecordOk(a.books.owner, a.books.records[i]);
      assert L.Owns(a.books.records[i], b.books.records[i].self) &&
        L.Owns(a.books.records[i], b.books.records[i].nameAt);
    }
  }

  /** The moments of a run: the state before each call and at the end, with what came of each call. */
  ghost predicate IsTrace(mem: seq<Byte>, heap: Heap, ss: seq<Snap>, calls: seq<Call>, os: seq<Outcome>) {
    Steps(mem, heap.objs, ss, calls, os) && Starts(ss[0], heap)
  }

  ghost predicate Starts(a: Snap, heap: Heap) {
    && a.entries == [] && a.tools == [] && a.log == [] && a.heap == heap
    && L.IsStart(a.books) && Accounted(a.books, heap) && UsersKept(heap.objs, a)
  }

  ghost predicate Steps(mem: seq<Byte>, objs: Objs, ss: seq<Snap>, calls: seq<Call>, os: seq<Outcome>) {
    && |ss| == |calls| + 1 && |os| == |calls|
    && forall i: nat :: i < |calls| ==> MakesAt(mem, objs, ss, calls, os, i)
  }

  ghost predicate MakesAt(mem: seq<Byte>, objs: Objs, ss: seq<Snap>, calls: seq<Call>, os: seq<Outcome>, i: nat)
    requires i < |calls| == |os| && |ss| == |calls| + 1
  {
    Makes(mem, objs, ss[i], calls[i], os[i], ss[i + 1])
  }

  lemma NextKeeps(mem: seq<Byte>, objs: Objs, ss: seq<Snap>, calls: seq<Call>, os: seq<Outcome>, i: nat)
    requires i < |calls| == |os| && |ss| == |calls| + 1 && MakesAt(mem, objs, ss, calls, os, i)
    requires Accounted(ss[i].books, ss[i].heap) && UsersKept(objs, ss[i])
    ensures Accounted(ss[i + 1].books, ss[i + 1].heap) && UsersKept(objs, ss[i + 1]) &&
        ss[i + 1].reportable == ss[i].reportable
  {
    CallKeepsUsers(mem, objs, ss[i], calls[i], os[i], ss[i + 1]);
  }

  lemma {:induction false} TraceKeeps(mem: seq<Byte>, heap: Heap, ss: seq<Snap>, calls: seq<Call>, os: seq<Outcome>,
      n: nat)
    requires IsTrace(mem, heap, ss, calls, os) && n <= |calls|
    ensures Accounted(ss[n].books, ss[n].heap) && UsersKept(heap.objs, ss[n]) && ss[n].reportable == ss[0].reportable
  {
    if n > 0 {
      TraceKeeps(mem, heap, ss, calls, os, n - 1);
      NextKeeps(mem, heap.objs, ss, calls, os, n - 1);
    }
  }

  lemma TraceExtends(mem: seq<Byte>, heap: Heap, ss: seq<Snap>, calls: seq<Call>, os: seq<Outcome>, n: nat)
    requires IsTrace(mem, heap, ss, calls, os) && n <= |calls|
    ensures Extends(heap.objs, ss[n].heap.objs)
  {
    TraceKeeps(mem, heap, ss, calls, os, n);
  }

  lemma SameMakesAt(mem: seq<Byte>, objs: Objs, ss: seq<Snap>, calls: seq<Call>, os: seq<Outcome>, b: Snap, c: Call,
      o: Outcome, i: nat)
    requires |calls| == |os| && |ss| == |calls| + 1 && i <= |calls|
    requires if i < |calls| then MakesAt(mem, objs, ss, calls, os, i) else Makes(mem, objs, ss[i], c, o, b)
    ensures MakesAt(mem, objs, ss + [b], calls + [c], os + [o], i)
  {
  }

  lemma LongerTrace(mem: seq<Byte>, heap: Heap, ss: seq<Snap>, calls: seq<Call>, os: seq<Outcome>, c: Call, o: Outcome,
      b: Snap)
    requires IsTrace(mem, heap, ss, calls, os) && Makes(mem, heap.objs, ss[|calls|], c, o, b)
    ensures IsTrace(mem, heap, ss + [b], calls + [c], os + [o])
  {
    forall i: nat | i < |calls| + 1 ensures MakesAt(mem, heap.objs, ss + [b], calls + [c], os + [o], i) {
      SameMakesAt(mem, heap.objs, ss, calls, os, b, c, o, i);
    }
  }

  /** One call. */
  method Do(store: Adiak, c: Call, mem: seq<Byte>, ghost objs: Objs) returns (result: int, ghost o: Outcome)
    requires store.Valid() && store.toolListSet
    requires Written(c) && Possible(c, mem, objs) && Extends(objs, store.heap.objs)
    modifies store`heap, store`books, store`entries, store`recs, store`sharedRecordList, store`log, store.recordHash,
        store.recs
    modifies store`tools, store`toolList, store`reportOnAllRanks, store.tools
    ensures store.Valid() && store.toolListSet
    ensures forall k :: 0 <= k < |store.recs| ==> store.recs[k] in old(store.recs) || fresh(store.recs[k])
    ensures forall k :: 0 <= k < |store.tools| ==> store.tools[k] in old(store.tools) || fresh(store.tools[k])
    ensures Makes(mem, objs, old(Now(store)), c, o, Now(store))
    ensures result == ResultOf(c)
  {
    if c.CallRegister? {
      store.Register(c.category, c.plain, c.withInfo, c.onAllRanks);
      result, o := 0, Enlisted;
    } else if c.CallNamevalue? {
      result, o := Namevalue(store, c, mem, objs);
    } else {
      result, o := CppNamevalue(store, c, mem, objs);
    }
  }

  /** Call i in a run. */
  method Next(store: Adiak, calls: seq<Call>, i: nat, mem: seq<Byte>, ghost heap: Heap, ghost ss: seq<Snap>,
      ghost os: seq<Outcome>)
    returns (result: int, ghost o: Outcome)
    requires i < |calls| && Written(calls[i]) && Possible(calls[i], mem, heap.objs)
    requires store.Valid() && store.toolListSet
    requires IsTrace(mem, heap, ss, calls[..i], os) && Now(store) == ss[i]
    modifies store`heap, store`books, store`entries, store`recs, store`sharedRecordList, store`log, store.recordHash,
        store.recs
    modifies store`tools, store`toolList, store`reportOnAllRanks, store.tools
    ensures store.Valid() && store.toolListSet
    ensures forall k :: 0 <= k < |store.recs| ==> store.recs[k] in old(store.recs) || fresh(store.recs[k])
    ensures forall k :: 0 <= k < |store.tools| ==> store.tools[k] in old(store.tools) || fresh(store.tools[k])
    ensures IsTrace(mem, heap, ss + [Now(store)], calls[..i + 1], os + [o])
    ensures result == ResultOf(calls[i])
  {
    TraceExtends(mem, heap, ss, calls[..i], os, i);
    result, o := Do(store, calls[i], mem, heap.objs);
    OneCallMore(calls, i);
    LongerTrace(mem, heap, ss, calls[..i], os, calls[i], o, Now(store));
  }

  function ResultOf(c: Call): int {
    if c.CallRegister? || TypeOf(c).Some? then 0 else -1
  }

  /** The results of the first n calls. */
  predicate Answered(calls: seq<Call>, n: nat, results: seq<int>)
    requires n <= |calls| && n <= |results|
  {
    forall i :: 0 <= i < n ==> results[i] == ResultOf(calls[i])
  }

  lemma AnsweredNext(calls: seq<Call>, n: nat, results: seq<int>, result: int)
    requires n < |calls| && |results| == n && Answered(calls, n, results) && result == ResultOf(calls[n])
    ensures Answered(calls, n + 1, results + [result])
  {
  }

  /** Makes the calls one after the other on a new store. What the caller has on the heap is in heap. */
  method Run(calls: seq<Call>, mem: seq<Byte>, reportable: bool, heap: Heap)
    returns (store: Adiak, results: seq<int>, ghost ss: seq<Snap>, ghost os: seq<Outcome>)
    requires heap.Valid() && forall i :: 0 <= i < |calls| ==> Written(calls[i]) && Possible(calls[i], mem, heap.objs)
    ensures fresh(store) && store.Valid() && store.toolListSet
    ensures fresh(store.recordHash) && (forall k :: 0 <= k < |store.recs| ==> fresh(store.recs[k]))
    ensures IsTrace(mem, heap, ss, calls, os) && ss[0].reportable == reportable && Now(store) == ss[|calls|]
    ensures |results| == |calls| && Answered(calls, |calls|, results)
  {
    store := new Adiak(reportable, heap);
    results, ss, os := [], [Now(store)], [];
    var i := 0;
    while i < |calls|
      invariant 0 <= i <= |calls| && |results| == i
      invariant fresh(store) && store.Valid() && store.toolListSet
      invariant fresh(store.recordHash) && forall k :: 0 <= k < |store.recs| ==> fresh(store.recs[k])
      invariant forall k :: 0 <= k < |store.tools| ==> fresh(store.tools[k])
      invariant IsTrace(mem, heap, ss, calls[..i], os) && ss[0].reportable == reportable && Now(store) == ss[i]
      invariant Answered(calls, i, results)
    {
      var result;
      ghost var o;
      result, o := Next(store, calls, i, mem, heap, ss, os);
      AnsweredNext(calls, i, results, result);
      results, ss, os := results + [result], ss + [Now(store)], os + [o];
      i := i + 1;
    }
    assert calls[..i] == calls;
  }

  lemma OneCallMore(calls: seq<Call>, i: nat)
    requires i < |calls|
    ensures calls[..i + 1] == calls[..i] + [calls[i]]
  {
  }
}
