/** What whole runs of the library come to: the index agrees with a map of the latest values, every tool has
    heard what it should, every value still reads as its caller meant it, and every block is accounted for. */
module StoreHistory {
  import opened AdiakTypes
  import opened CHeap
  import opened Layout
  import opened Views
  import opened Records
  import opened Store
  import opened StoreRuns
  import D = Dispatch
  import L = Ledger

  // ---------------------------------------------------------------- the index

  /** The entries registered by the first n calls, in order. */
  function PutsOf(calls: seq<Call>, os: seq<Outcome>, n: nat): seq<Entry>
    requires n <= |calls| == |os|
  {
    if n == 0 then [] else PutsOf(calls, os, n - 1) + PutOf(calls[n - 1], os[n - 1])
  }

  function PutOf(c: Call, o: Outcome): seq<Entry> {
    if o.Kept? && !c.CallRegister? then [EntryOf(c, o.x)] else []
  }

  /** The index holds what the first n calls have registered. */
  predicate Indexed(ss: seq<Snap>, calls: seq<Call>, os: seq<Outcome>, n: nat)
    requires n <= |calls| == |os| && |ss| == |calls| + 1
  {
    ss[n].entries == After(PutsOf(calls, os, n))
  }

  predicate IndexedThen(ss: seq<Snap>, calls: seq<Call>, os: seq<Outcome>, n: nat)
    requires n < |calls| == |os| && |ss| == |calls| + 1
  {
    Indexed(ss, calls, os, n) ==> Indexed(ss, calls, os, n + 1)
  }

  lemma IndexedNext(mem: seq<Byte>, objs: Objs, ss: seq<Snap>, calls: seq<Call>, os: seq<Outcome>, n: nat)
    requires Steps(mem, objs, ss, calls, os) && n < |calls|
    ensures IndexedThen(ss, calls, os, n)
  {
    assert MakesAt(mem, objs, ss, calls, os, n);
    AfterMore(PutsOf(calls, os, n), PutOf(calls[n], os[n]));
  }

  lemma {:induction false} IndexedUpTo(ss: seq<Snap>, calls: seq<Call>, os: seq<Outcome>, n: nat)
    requires n <= |calls| == |os| && |ss| == |calls| + 1 && ss[0].entries == []
    requires forall k: nat :: k < n ==> IndexedThen(ss, calls, os, k)
    ensures Indexed(ss, calls, os, n)
    decreases n
  {
    if n > 0 {
      IndexedUpTo(ss, calls, os, n - 1);
      assert IndexedThen(ss, calls, os, n - 1);
    }
  }

  lemma EntriesAreAfter(mem: seq<Byte>, objs: Objs, ss: seq<Snap>, calls: seq<Call>, os: seq<Outcome>, n: nat)
    requires Steps(mem, objs, ss, calls, os) && n <= |calls| && ss[0].entries == []
    ensures Indexed(ss, calls, os, n)
  {
    forall k: nat | k < n ensures IndexedThen(ss, calls, os, k) {
      IndexedNext(mem, objs, ss, calls, os, k);
    }
    IndexedUpTo(ss, calls, os, n);
  }

  lemma AfterMore(puts: seq<Entry>, put: seq<Entry>)
    requires |put| <= 1
    ensures After(puts + put) == if put == [] then After(puts) else Upsert(After(puts), put[0])
  {
    if put == [] {
      assert puts + put == puts;
    } else {
      assert (puts + put)[..|puts + put| - 1] == puts;
    }
  }

  /** The index is a map from each name to its latest value, and lists in reverse order of first registration. */
  lemma IndexOverRuns(mem: seq<Byte>, heap: Heap, ss: seq<Snap>, calls: seq<Call>, os: seq<Outcome>, n: nat,
      name: string, category: int)
    requires IsTrace(mem, heap, ss, calls, os) && n <= |calls|
    ensures var puts := PutsOf(calls, os, n);
            && NamesUnique(ss[n].entries) && Lookup(ss[n].entries, name) == Latest(puts, name)
            && Listing(ss[n].entries, category, 0) == Expected(puts, FirstNames(puts), category)
  {
    EntriesAreAfter(mem, heap.objs, ss, calls, os, n);
    StoreIsLatest(PutsOf(calls, os, n), name);
    ListingIsExpected(PutsOf(calls, os, n), category);
  }

  /** The call registers a value under the name: that is said by its type string and its category. */
  predicate Puts(c: Call, name: string) {
    !c.CallRegister? && c.name == name && TypeOf(c).Some? && c.category != CONTROL
  }

  /** The last of the first n calls that registers a value under the name. */
  function LastPut(calls: seq<Call>, n: nat, name: string): (i: Option<nat>)
    requires n <= |calls|
    ensures i.Some? ==> i.value < n && Puts(calls[i.value], name)
    ensures forall j :: (if i.Some? then i.value + 1 else 0) <= j < n ==> !Puts(calls[j], name)
  {
    if n == 0 then None else if Puts(calls[n - 1], name) then Some(n - 1) else LastPut(calls, n - 1, name)
  }

  lemma KeptIfPuts(mem: seq<Byte>, objs: Objs, ss: seq<Snap>, calls: seq<Call>, os: seq<Outcome>, n: nat, name: string)
    requires Steps(mem, objs, ss, calls, os) && n < |calls|
    ensures Puts(calls[n], name) <==> os[n].Kept? && !calls[n].CallRegister? && calls[n].name == name
  {
    assert MakesAt(mem, objs, ss, calls, os, n);
  }

  /** There is a latest value exactly if some call registers one. */
  predicate FoundIfPut(calls: seq<Call>, os: seq<Outcome>, n: nat, name: string)
    requires n <= |calls| == |os|
  {
    Latest(PutsOf(calls, os, n), name).Some? <==> LastPut(calls, n, name).Some?
  }

  predicate FoundIfPutThen(calls: seq<Call>, os: seq<Outcome>, n: nat, name: string)
    requires n < |calls| == |os|
  {
    FoundIfPut(calls, os, n, name) ==> FoundIfPut(calls, os, n + 1, name)
  }

  lemma FoundIfPutNext(mem: seq<Byte>, objs: Objs, ss: seq<Snap>, calls: seq<Call>, os: seq<Outcome>, n: nat,
      name: string)
    requires Steps(mem, objs, ss, calls, os) && n < |calls|
    ensures FoundIfPutThen(calls, os, n, name)
  {
    KeptIfPuts(mem, objs, ss, calls, os, n, name);
    LatestOfMore(PutsOf(calls, os, n), PutOf(calls[n], os[n]), name);
  }

  lemma {:induction false} FoundIfPutUpTo(calls: seq<Call>, os: seq<Outcome>, n: nat, name: string)
    requires n <= |calls| == |os| && forall k: nat :: k < n ==> FoundIfPutThen(calls, os, k, name)
    ensures FoundIfPut(calls, os, n, name)
    decreases n
  {
    if n > 0 {
      FoundIfPutUpTo(calls, os, n - 1, name);
      assert FoundIfPutThen(calls, os, n - 1, name);
    }
  }

  lemma LatestIfPut(mem: seq<Byte>, objs: Objs, ss: seq<Snap>, calls: seq<Call>, os: seq<Outcome>, n: nat, name: string)
    requires Steps(mem, objs, ss, calls, os) && n <= |calls|
    ensures FoundIfPut(calls, os, n, name)
  {
    forall k: nat | k < n ensures FoundIfPutThen(calls, os, k, name) {
      FoundIfPutNext(mem, objs, ss, calls, os, k, name);
    }
    FoundIfPutUpTo(calls, os, n, name);
  }

  lemma LatestOfMore(puts: seq<Entry>, put: seq<Entry>, name: string)
    requires |put| <= 1
    ensures Latest(puts + put, name) == if put != [] && put[0].name == name then Some(put[0]) else Latest(puts, name)
  {
    if put == [] {
      assert puts + put == puts;
    } else {
      assert (puts + put)[..|puts + put| - 1] == puts;
    }
  }

  // ---------------------------------------------------------------- the tools

  /** The registrations and events of the first n calls. */
  ghost function OpsOf(ss: seq<Snap>, calls: seq<Call>, os: seq<Outcome>, n: nat): seq<D.Op>
    requires n <= |calls| == |os| && |ss| == |calls| + 1
  {
    if n == 0 then [] else OpsOf(ss, calls, os, n - 1) + OpsOfCall(ss[n - 1], calls[n - 1], os[n - 1])
  }

  ghost function OpsOfCall(a: Snap, c: Call, o: Outcome): seq<D.Op> {
    if c.CallRegister? then [D.Register(ToolOf(a, c))]
    else if o.Told? || o.Kept? then [D.Raise(EventOf(c.name, c.category, c.subcategory, o.x, c.now))]
    else []
  }

  /** What a call does to the tools and the log. */
  ghost predicate Follows(a: Snap, op: seq<D.Op>, b: Snap) {
    && b.reportable == a.reportable && |op| <= 1
    && b.tools == (if op != [] && op[0].Register? then [op[0].t] + a.tools else a.tools)
    && b.log == a.log + if op != [] && op[0].Raise? then D.Dispatched(a.tools, op[0].e, a.reportable, 0) else []
  }

  lemma CallFollows(mem: seq<Byte>, objs: Objs, a: Snap, c: Call, o: Outcome, b: Snap)
    requires Makes(mem, objs, a, c, o, b)
    ensures Follows(a, OpsOfCall(a, c, o), b)
  {
  }

  lemma ToolsAfterCall(a: Snap, op: seq<D.Op>, b: Snap, ops: seq<D.Op>)
    requires Follows(a, op, b)
    requires a.tools == D.ToolsAfter(ops) && a.log == D.LogAfter(ops, a.reportable)
    ensures b.tools == D.ToolsAfter(ops + op) && b.log == D.LogAfter(ops + op, b.reportable)
  {
    if op == [] {
      assert ops + op == ops;
    } else {
      assert (ops + op)[..|ops + op| - 1] == ops && (ops + op)[|ops + op| - 1] == op[0];
    }
  }

  lemma {:induction false} ToolsAreAfter(mem: seq<Byte>, objs: Objs, ss: seq<Snap>, calls: seq<Call>, os: seq<Outcome>,
      n: nat)
    requires Steps(mem, objs, ss, calls, os) && n <= |calls| && ss[0].tools == [] && ss[0].log == []
    ensures ss[n].tools == D.ToolsAfter(OpsOf(ss, calls, os, n))
    ensures ss[n].log == D.LogAfter(OpsOf(ss, calls, os, n), ss[n].reportable)
  {
    if n > 0 {
      ToolsAreAfter(mem, objs, ss, calls, os, n - 1);
      assert MakesAt(mem, objs, ss, calls, os, n - 1);
      CallFollows(mem, objs, ss[n - 1], calls[n - 1], os[n - 1], ss[n]);
      ToolsAfterCall(ss[n - 1], OpsOfCall(ss[n - 1], calls[n - 1], os[n - 1]), ss[n], OpsOf(ss, calls, os, n - 1));
    }
  }

  /** The tools in the list are those whose blocks the ledger has as tools. */
  ghost predicate ToolsBooked(a: Snap) {
    |a.tools| == |a.books.tools| && forall k :: 0 <= k < |a.tools| ==> a.tools[k].self == a.books.tools[k]
  }

  lemma BookedAfterCall(mem: seq<Byte>, objs: Objs, a: Snap, c: Call, o: Outcome, b: Snap)
    requires Makes(mem, objs, a, c, o, b) && ToolsBooked(a)
    ensures ToolsBooked(b)
  {
    if o.Kept? {
      RecordedKeepsTools(a.entries, EntryOf(c, o.x), AdoptedBooks(a.books, a.heap, o.h), b.books);
    }
  }

  lemma RecordedKeepsTools(es: seq<Entry>, e: Entry, b: L.Books, c: L.Books)
    requires Recorded(es, e, b, c)
    ensures c.tools == b.tools
  {
  }

  lemma NextToolIsNew(mem: seq<Byte>, heap: Heap, ss: seq<Snap>, calls: seq<Call>, os: seq<Outcome>, n: nat)
    requires IsTrace(mem, heap, ss, calls, os) && n < |calls|
    requires ToolsBooked(ss[n]) && D.NoToolTwice(OpsOf(ss, calls, os, n))
    ensures ToolsBooked(ss[n + 1]) && !D.Registers(OpsOf(ss, calls, os, n), ss[n].heap.next)
  {
    ToolsAreAfter(mem, heap.objs, ss, calls, os, n);
    TraceKeeps(mem, heap, ss, calls, os, n);
    NewToolIsNew(ss[n], OpsOf(ss, calls, os, n));
    assert MakesAt(mem, heap.objs, ss, calls, os, n);
    BookedAfterCall(mem, heap.objs, ss[n], calls[n], os[n], ss[n + 1]);
  }

  /** No tool registers twice: its block is new, and the blocks of the tools in the list are live. */
  lemma {:induction false} NoToolRegistersTwice(mem: seq<Byte>, heap: Heap, ss: seq<Snap>, calls: seq<Call>,
      os: seq<Outcome>, n: nat)
    requires IsTrace(mem, heap, ss, calls, os) && n <= |calls|
    ensures ToolsBooked(ss[n]) && D.NoToolTwice(OpsOf(ss, calls, os, n))
  {
    if n > 0 {
      NoToolRegistersTwice(mem, heap, ss, calls, os, n - 1);
      NextToolIsNew(mem, heap, ss, calls, os, n - 1);
      OneMoreOp(OpsOf(ss, calls, os, n - 1), ss[n - 1], calls[n - 1], os[n - 1]);
    }
  }

  lemma NewToolIsNew(a: Snap, ops: seq<D.Op>)
    requires Accounted(a.books, a.heap) && ToolsBooked(a) && D.NoToolTwice(ops) && a.tools == D.ToolsAfter(ops)
    ensures !D.Registers(ops, a.heap.next)
  {
    D.ToolsOf(ops);
    forall i | 0 <= i < |ops| && ops[i].Register? ensures ops[i].t.self != a.heap.next {
      assert D.Register(ops[i].t) in ops;
      var k :| 0 <= k < |a.tools| && a.tools[k] == ops[i].t;
      assert a.books.tools[k] in a.books.tools;
    }
  }

  lemma OneMoreOp(ops: seq<D.Op>, a: Snap, c: Call, o: Outcome)
    requires D.NoToolTwice(ops) && !D.Registers(ops, a.heap.next)
    ensures D.NoToolTwice(ops + OpsOfCall(a, c, o))
  {
  }

  /** Dispatch over runs: a tool that registers at call k has heard, after n calls, exactly the events after
      its registration that it wants, once each and in order. */
  lemma DispatchOverRuns(mem: seq<Byte>, heap: Heap, ss: seq<Snap>, calls: seq<Call>, os: seq<Outcome>, k: nat, n: nat)
    requires IsTrace(mem, heap, ss, calls, os) && k < n <= |calls| && calls[k].CallRegister?
    ensures var t, m, ops := ToolOf(ss[k], calls[k]), |OpsOf(ss, calls, os, k)|, OpsOf(ss, calls, os, n);
            && m < |ops| && ops[..m] == OpsOf(ss, calls, os, k) && ops[m] == D.Register(t)
            && D.Heard(ss[n].log, t.self) == D.Due(t, ops[m + 1..], ss[0].reportable)
  {
    LogIsOfOps(mem, heap, ss, calls, os, n);
    RegistrationStands(ss, calls, os, k, n);
    D.HeardSince(OpsOf(ss, calls, os, n), |OpsOf(ss, calls, os, k)|, ss[0].reportable);
  }

  // ---------------------------------------------------------------- what a tool hears, said of the calls

  /** The calls from i on, before n, that raise an event: those that hand over a value. */
  function Raising(calls: seq<Call>, i: nat, n: nat): (ms: seq<nat>)
    requires n <= |calls|
    ensures forall j :: 0 <= j < |ms| ==> i <= ms[j] < n && TypeOf(calls[ms[j]]).Some?
    ensures forall j, l :: 0 <= j < l < |ms| ==> ms[j] < ms[l]
    ensures forall m :: i <= m < n && TypeOf(calls[m]).Some? ==> m in ms
  {
    if n <= i then [] else Raising(calls, i, n - 1) + if TypeOf(calls[n - 1]).Some? then [n - 1] else []
  }

  /** Those among them with a category. */
  function RaisingIn(calls: seq<Call>, i: nat, n: nat, category: int): (ms: seq<nat>)
    requires n <= |calls|
    ensures forall j :: 0 <= j < |ms| ==>
        i <= ms[j] < n && TypeOf(calls[ms[j]]).Some? && calls[ms[j]].category == category
    ensures forall j, l :: 0 <= j < l < |ms| ==> ms[j] < ms[l]
    ensures forall m :: i <= m < n && TypeOf(calls[m]).Some? && calls[m].category == category ==> m in ms
  {
    if n <= i then []
    else RaisingIn(calls, i, n - 1, category)
         + if TypeOf(calls[n - 1]).Some? && calls[n - 1].category == category then [n - 1] else []
  }

  /** The callback that tool registration r, known by block self, gets for call c: the one without info if there
      is one. A control event, of the category with the number 4, has no info. */
  predicate IsCallback(r: Call, self: nat, c: Call, x: Handle, cb: D.Call) {
    && r.CallRegister? && !c.CallRegister?
    && cb == if r.plain then D.PlainCall(self, c.name, c.category, c.subcategory, x.value, x.dtype)
             else D.InfoCall(self, c.name, x.value, x.dtype,
                             if c.category == 4 then None else Some(Info(c.category, c.subcategory, c.now)))
  }

  predicate AreCallbacks(r: Call, self: nat, calls: seq<Call>, os: seq<Outcome>, ms: seq<nat>, cbs: seq<D.Call>)
    requires |calls| == |os|
  {
    |cbs| == |ms| && forall j :: 0 <= j < |ms| ==> IsCallbackAt(r, self, calls, os, ms[j], cbs[j])
  }

  predicate IsCallbackAt(r: Call, self: nat, calls: seq<Call>, os: seq<Outcome>, m: nat, cb: D.Call)
    requires |calls| == |os|
  {
    m < |calls| && (os[m].Told? || os[m].Kept?) && IsCallback(r, self, calls[m], os[m].x, cb)
  }

  /** What has been done since the registration at call k. */
  ghost function OpsSince(ss: seq<Snap>, calls: seq<Call>, os: seq<Outcome>, k: nat, n: nat): seq<D.Op>
    requires k < n <= |calls| == |os| && |ss| == |calls| + 1
    decreases n
  {
    if n == k + 1 then [] else OpsSince(ss, calls, os, k, n - 1) + OpsOfCall(ss[n - 1], calls[n - 1], os[n - 1])
  }

  lemma {:induction false} OpsSinceAre(ss: seq<Snap>, calls: seq<Call>, os: seq<Outcome>, k: nat, n: nat)
    requires k < n <= |calls| == |os| && |ss| == |calls| + 1 && calls[k].CallRegister?
    ensures OpsOf(ss, calls, os, n)
         == OpsOf(ss, calls, os, k) + [D.Register(ToolOf(ss[k], calls[k]))] + OpsSince(ss, calls, os, k, n)
    decreases n
  {
    if n > k + 1 {
      OpsSinceAre(ss, calls, os, k, n - 1);
      var before, now := OpsOf(ss, calls, os, k) + [D.Register(ToolOf(ss[k], calls[k]))],
                         OpsOfCall(ss[n - 1], calls[n - 1], os[n - 1]);
      assert before + OpsSince(ss, calls, os, k, n - 1) + now == before + (OpsSince(ss, calls, os, k, n - 1) + now);
    }
  }

  lemma RaisedIf(mem: seq<Byte>, objs: Objs, ss: seq<Snap>, calls: seq<Call>, os: seq<Outcome>, n: nat)
    requires Steps(mem, objs, ss, calls, os) && n < |calls|
    ensures TypeOf(calls[n]).Some? ==> os[n].Told? || os[n].Kept?
    ensures TypeOf(calls[n]).Some? ==> OpsOfCall(ss[n], calls[n], os[n]) == [D.Raise(EventOfCall(calls[n], os[n].x))]
    ensures TypeOf(calls[n]).None? ==> NothingRaised(OpsOfCall(ss[n], calls[n], os[n]))
  {
    assert MakesAt(mem, objs, ss, calls, os, n);
  }

  predicate NothingRaised(op: seq<D.Op>) {
    op == [] || (|op| == 1 && op[0].Register?)
  }

  lemma DueOfMore(t: D.ToolInfo, ops: seq<D.Op>, op: seq<D.Op>, reportable: bool)
    requires |op| <= 1
    ensures D.Due(t, ops + op, reportable)
         == D.Due(t, ops, reportable)
            + if op != [] && op[0].Raise? && D.Wants(t, op[0].e, reportable) then [D.CallOf(t, op[0].e)] else []
  {
    if op == [] {
      assert ops + op == ops;
    } else {
      assert (ops + op)[..|ops + op| - 1] == ops;
    }
  }

  /** Which calls a tool hears of. */
  function HeardCalls(r: Call, reportable: bool, calls: seq<Call>, k: nat, n: nat): seq<nat>
    requires r.CallRegister? && k < n <= |calls|
  {
    if (!r.onAllRanks && !reportable) || (!r.plain && !r.withInfo) then []
    else if r.category == 1 then Raising(calls, k + 1, n) else RaisingIn(calls, k + 1, n, r.category)
  }

  ghost predicate DueHolds(ss: seq<Snap>, calls: seq<Call>, os: seq<Outcome>, k: nat, n: nat)
    requires k < n <= |calls| == |os| && |ss| == |calls| + 1 && calls[k].CallRegister?
  {
    var t := ToolOf(ss[k], calls[k]);
    AreCallbacks(calls[k], t.self, calls, os, HeardCalls(calls[k], ss[0].reportable, calls, k, n),
                 D.Due(t, OpsSince(ss, calls, os, k, n), ss[0].reportable))
  }

  ghost predicate DueHoldsThen(ss: seq<Snap>, calls: seq<Call>, os: seq<Outcome>, k: nat, n: nat)
    requires k < n < |calls| == |os| && |ss| == |calls| + 1 && calls[k].CallRegister?
  {
    DueHolds(ss, calls, os, k, n) ==> DueHolds(ss, calls, os, k, n + 1)
  }

  lemma OneCallbackMore(r: Call, self: nat, calls: seq<Call>, os: seq<Outcome>, ms: seq<nat>, cbs: seq<D.Call>, m: nat,
      cb: D.Call)
    requires |calls| == |os| && AreCallbacks(r, self, calls, os, ms, cbs) && IsCallbackAt(r, self, calls, os, m, cb)
    ensures AreCallbacks(r, self, calls, os, ms + [m], cbs + [cb])
  {
  }

  /** What is due after one call more. */
  lemma DueNext(mem: seq<Byte>, objs: Objs, ss: seq<Snap>, calls: seq<Call>, os: seq<Outcome>, k: nat, n: nat)
    requires Steps(mem, objs, ss, calls, os) && k < n < |calls| && calls[k].CallRegister?
    ensures TypeOf(calls[n]).Some? ==> os[n].Told? || os[n].Kept?
    ensures var t, rep := ToolOf(ss[k], calls[k]), ss[0].reportable;
            D.Due(t, OpsSince(ss, calls, os, k, n + 1), rep)
            == D.Due(t, OpsSince(ss, calls, os, k, n), rep)
               + if TypeOf(calls[n]).Some? && D.Wants(t, EventOfCall(calls[n], os[n].x), rep)
                 then [D.CallOf(t, EventOfCall(calls[n], os[n].x))] else []
  {
    RaisedIf(mem, objs, ss, calls, os, n);
    DueOfMore(ToolOf(ss[k], calls[k]), OpsSince(ss, calls, os, k, n), OpsOfCall(ss[n], calls[n], os[n]),
              ss[0].reportable);
  }

  lemma DueHoldsNext(mem: seq<Byte>, objs: Objs, ss: seq<Snap>, calls: seq<Call>, os: seq<Outcome>, k: nat, n: nat)
    requires Steps(mem, objs, ss, calls, os) && k < n < |calls| && calls[k].CallRegister?
    ensures DueHoldsThen(ss, calls, os, k, n)
  {
    DueNext(mem, objs, ss, calls, os, k, n);
    DueHoldsMore(ss, calls, os, k, n, OpsSince(ss, calls, os, k, n), OpsSince(ss, calls, os, k, n + 1));
  }

  lemma DueHoldsMore(ss: seq<Snap>, calls: seq<Call>, os: seq<Outcome>, k: nat, n: nat, ops: seq<D.Op>, more: seq<D.Op>)
    requires k < n < |calls| == |os| && |ss| == |calls| + 1 && calls[k].CallRegister?
    requires TypeOf(calls[n]).Some? ==> os[n].Told? || os[n].Kept?
    requires ops == OpsSince(ss, calls, os, k, n) && more == OpsSince(ss, calls, os, k, n + 1)
    requires var t, rep := ToolOf(ss[k], calls[k]), ss[0].reportable;
             D.Due(t, more, rep)
             == D.Due(t, ops, rep) + if TypeOf(calls[n]).Some? && D.Wants(t, EventOfCall(calls[n], os[n].x), rep)
                                     then [D.CallOf(t, EventOfCall(calls[n], os[n].x))] else []
    ensures DueHoldsThen(ss, calls, os, k, n)
  {
    var r, t, rep := calls[k], ToolOf(ss[k], calls[k]), ss[0].reportable;
    OneMoreCallback(ss[k], r, calls, os, k, n, rep);
    if DueHolds(ss, calls, os, k, n) && TypeOf(calls[n]).Some? && D.Wants(t, EventOfCall(calls[n], os[n].x), rep) {
      OneCallbackMore(r, t.self, calls, os, HeardCalls(r, rep, calls, k, n), D.Due(t, ops, rep), n,
                      D.CallOf(t, EventOfCall(calls[n], os[n].x)));
    }
  }

  lemma {:induction false} DueUpTo(ss: seq<Snap>, calls: seq<Call>, os: seq<Outcome>, k: nat, n: nat)
    requires k < n <= |calls| == |os| && |ss| == |calls| + 1 && calls[k].CallRegister?
    requires forall m: nat :: k < m < n ==> DueHoldsThen(ss, calls, os, k, m)
    ensures DueHolds(ss, calls, os, k, n)
    decreases n
  {
    if n == k + 1 {
      DueAtFirst(ss, calls, os, k);
    } else {
      DueUpTo(ss, calls, os, k, n - 1);
      assert DueHoldsThen(ss, calls, os, k, n - 1);
    }
  }

  lemma DueAtFirst(ss: seq<Snap>, calls: seq<Call>, os: seq<Outcome>, k: nat)
    requires k < |calls| == |os| && |ss| == |calls| + 1 && calls[k].CallRegister?
    ensures DueHolds(ss, calls, os, k, k + 1)
  {
    assert OpsSince(ss, calls, os, k, k + 1) == [];
    assert HeardCalls(calls[k], ss[0].reportable, calls, k, k + 1) == [];
  }

  lemma DueAre(mem: seq<Byte>, objs: Objs, ss: seq<Snap>, calls: seq<Call>, os: seq<Outcome>, k: nat, n: nat)
    requires Steps(mem, objs, ss, calls, os) && k < n <= |calls| && calls[k].CallRegister?
    ensures DueHolds(ss, calls, os, k, n)
  {
    forall m: nat | k < m < n ensures DueHoldsThen(ss, calls, os, k, m) {
      DueHoldsNext(mem, objs, ss, calls, os, k, m);
    }
    DueUpTo(ss, calls, os, k, n);
  }

  /** One call more, said without the filter of the code. */
  lemma OneMoreCallback(a: Snap, r: Call, calls: seq<Call>, os: seq<Outcome>, k: nat, n: nat, reportable: bool)
    requires r.CallRegister? && k < n < |calls| == |os|
    requires TypeOf(calls[n]).Some? ==> os[n].Told? || os[n].Kept?
    ensures TypeOf(calls[n]).Some? ==>
              var e := EventOfCall(calls[n], os[n].x);
              && HeardCalls(r, reportable, calls, k, n + 1)
                 == HeardCalls(r, reportable, calls, k, n) + (if D.Wants(ToolOf(a, r), e, reportable) then [n] else [])
              && IsCallbackAt(r, ToolOf(a, r).self, calls, os, n, D.CallOf(ToolOf(a, r), e))
    ensures TypeOf(calls[n]).None? ==>
        HeardCalls(r, reportable, calls, k, n + 1) == HeardCalls(r, reportable, calls, k, n)
  {
  }

  /** What a tool has heard after n calls, in terms of the calls alone: one that registers for the category with
      the number 1, adiak_category_all, hears of every value, one for another category of exactly those with that
      category, once each and in order; on a rank that is not reportable a tool hears nothing unless it asked for
      all ranks, and one without a callback hears nothing. */
  lemma HeardOverRuns(mem: seq<Byte>, heap: Heap, ss: seq<Snap>, calls: seq<Call>, os: seq<Outcome>, k: nat, n: nat)
    requires IsTrace(mem, heap, ss, calls, os) && k < n <= |calls| && calls[k].CallRegister?
    ensures var self := ToolOf(ss[k], calls[k]).self;
            AreCallbacks(calls[k], self, calls, os, HeardCalls(calls[k], ss[0].reportable, calls, k, n),
                         D.Heard(ss[n].log, self))
  {
    var before, t := OpsOf(ss, calls, os, k), ToolOf(ss[k], calls[k]);
    LogIsOfOps(mem, heap, ss, calls, os, n);
    OpsSinceAre(ss, calls, os, k, n);
    D.ToolHears(before, t, OpsSince(ss, calls, os, k, n), ss[0].reportable);
    DueAre(mem, heap.objs, ss, calls, os, k, n);
  }

  /** Listing after n calls: with the category 1 every entry, with another one the entries of that category. */
  lemma ListingOverRuns(mem: seq<Byte>, heap: Heap, ss: seq<Snap>, calls: seq<Call>, os: seq<Outcome>, n: nat, c: int)
    requires IsTrace(mem, heap, ss, calls, os) && n <= |calls| && c != 1
    ensures var es := ss[n].entries;
            && Listing(es, 1, 0) == es
            && |Listing(es, c, 0)| == |PlacesOf(es, c, 0)|
            && forall j :: 0 <= j < |PlacesOf(es, c, 0)| ==> Listing(es, c, 0)[j] == es[PlacesOf(es, c, 0)[j]]
  {
    ListingAll(ss[n].entries, 0);
    ListingOne(ss[n].entries, c, 0);
  }

  /** What call n adds to the log for its event: of two tools that want the event, the one that registered
      later is called earlier. */
  lemma NewestFirstOverRuns(mem: seq<Byte>, heap: Heap, ss: seq<Snap>, calls: seq<Call>, os: seq<Outcome>, i: nat,
      j: nat, n: nat)
    requires IsTrace(mem, heap, ss, calls, os) && i < j < n < |calls| && (os[n].Told? || os[n].Kept?)
    requires calls[i].CallRegister? && calls[j].CallRegister? && !calls[n].CallRegister?
    requires var e := EventOfCall(calls[n], os[n].x);
             D.Wants(ToolOf(ss[i], calls[i]), e, ss[0].reportable) &&
               D.Wants(ToolOf(ss[j], calls[j]), e, ss[0].reportable)
    ensures ss[n].log <= ss[n + 1].log
    ensures var e, more := EventOfCall(calls[n], os[n].x), ss[n + 1].log[|ss[n].log|..];
            D.Before(more, D.CallOf(ToolOf(ss[j], calls[j]), e), D.CallOf(ToolOf(ss[i], calls[i]), e))
  {
    var e, ops := EventOfCall(calls[n], os[n].x), OpsOf(ss, calls, os, n);
    var a, b := |OpsOf(ss, calls, os, i)|, |OpsOf(ss, calls, os, j)|;
    NoToolRegistersTwice(mem, heap, ss, calls, os, n);
    RegistrationStands(ss, calls, os, i, n);
    RegistrationStands(ss, calls, os, j, n);
    RegistrationStands(ss, calls, os, i, j);
    D.NewestFirst(ops, a, b, e, ss[0].reportable);
    EventIsTold(mem, heap, ss, calls, os, n);
  }

  function EventOfCall(c: Call, x: Handle): D.Event
    requires !c.CallRegister?
  {
    EventOf(c.name, c.category, c.subcategory, x, c.now)
  }

  lemma EventIsTold(mem: seq<Byte>, heap: Heap, ss: seq<Snap>, calls: seq<Call>, os: seq<Outcome>, n: nat)
    requires IsTrace(mem, heap, ss, calls, os) && n < |calls| && (os[n].Told? || os[n].Kept?) && !calls[n].CallRegister?
    ensures ss[n + 1].log
         == ss[n].log + D.Dispatched(D.ToolsAfter(OpsOf(ss, calls, os, n)), EventOfCall(calls[n], os[n].x),
           ss[0].reportable, 0)
  {
    ToolsAreAfter(mem, heap.objs, ss, calls, os, n);
    TraceKeeps(mem, heap, ss, calls, os, n);
    assert MakesAt(mem, heap.objs, ss, calls, os, n);
  }

  lemma LogIsOfOps(mem: seq<Byte>, heap: Heap, ss: seq<Snap>, calls: seq<Call>, os: seq<Outcome>, n: nat)
    requires IsTrace(mem, heap, ss, calls, os) && n <= |calls|
    ensures D.NoToolTwice(OpsOf(ss, calls, os, n))
    ensures ss[n].log == D.LogAfter(OpsOf(ss, calls, os, n), ss[0].reportable)
  {
    NoToolRegistersTwice(mem, heap, ss, calls, os, n);
    ToolsAreAfter(mem, heap.objs, ss, calls, os, n);
    TraceKeeps(mem, heap, ss, calls, os, n);
  }

  lemma RegistrationStands(ss: seq<Snap>, calls: seq<Call>, os: seq<Outcome>, k: nat, n: nat)
    requires k < n <= |calls| == |os| && |ss| == |calls| + 1 && calls[k].CallRegister?
    ensures var m, ops := |OpsOf(ss, calls, os, k)|, OpsOf(ss, calls, os, n);
            m < |ops| && ops[..m] == OpsOf(ss, calls, os, k) && ops[m] == D.Register(ToolOf(ss[k], calls[k]))
  {
    OpsPrefix(ss, calls, os, k + 1, n);
    assert OpsOf(ss, calls, os, k + 1) == OpsOf(ss, calls, os, k) + [D.Register(ToolOf(ss[k], calls[k]))];
  }

  lemma {:induction false} OpsPrefix(ss: seq<Snap>, calls: seq<Call>, os: seq<Outcome>, k: nat, n: nat)
    requires k <= n <= |calls| == |os| && |ss| == |calls| + 1
    ensures OpsOf(ss, calls, os, k) <= OpsOf(ss, calls, os, n)
    decreases n
  {
    if k < n {
      OpsPrefix(ss, calls, os, k, n - 1);
    }
  }

  // ---------------------------------------------------------------- the ledger

  lemma LedgerOfNext(mem: seq<Byte>, heap: Heap, ss: seq<Snap>, calls: seq<Call>, os: seq<Outcome>, n: nat,
      run: seq<L.Books>, ops: seq<L.Op>)
    returns (run': seq<L.Books>, ops': seq<L.Op>)
    requires IsTrace(mem, heap, ss, calls, os) && n < |calls| && L.IsRun(run, ops) && run[|ops|] == ss[n].books
    ensures L.IsRun(run', ops') && run'[|ops'|] == ss[n + 1].books
  {
    TraceKeeps(mem, heap, ss, calls, os, n);
    assert MakesAt(mem, heap.objs, ss, calls, os, n);
    run', ops' := LedgerOfCall(mem, heap.objs, ss[n], calls[n], os[n], ss[n + 1], run, ops);
  }

  /** The run of the ledger that n calls make. */
  lemma {:induction false} LedgerOverRuns(mem: seq<Byte>, heap: Heap, ss: seq<Snap>, calls: seq<Call>,
      os: seq<Outcome>, n: nat)
    returns (run: seq<L.Books>, ops: seq<L.Op>)
    requires IsTrace(mem, heap, ss, calls, os) && n <= |calls|
    ensures L.IsRun(run, ops) && run[|ops|] == ss[n].books
  {
    if n == 0 {
      run, ops := [ss[0].books], [];
    } else {
      run, ops := LedgerOverRuns(mem, heap, ss, calls, os, n - 1);
      run, ops := LedgerOfNext(mem, heap, ss, calls, os, n - 1, run, ops);
    }
  }

  lemma OneLedgerStep(run: seq<L.Books>, ops: seq<L.Op>, op: L.Op, c: L.Books)
    requires L.IsRun(run, ops) && L.Step(run[|ops|], op, c)
    ensures L.IsRun(run + [c], ops + [op])
  {
    var run', ops' := run + [c], ops + [op];
    forall i | 0 <= i < |ops'| ensures L.Step(run'[i], ops'[i], run'[i + 1]) {
      if i < |ops| {
        assert L.Step(run[i], ops[i], run[i + 1]);
      }
    }
  }

  lemma LedgerOfCall(mem: seq<Byte>, objs: Objs, a: Snap, c: Call, o: Outcome, b: Snap, run: seq<L.Books>,
      ops: seq<L.Op>)
    returns (run': seq<L.Books>, ops': seq<L.Op>)
    requires Makes(mem, objs, a, c, o, b) && L.IsRun(run, ops) && run[|ops|] == a.books
    requires Accounted(a.books, a.heap)
    ensures L.IsRun(run', ops') && run'[|ops'|] == b.books
  {
    if o.Kept? {
      var mid := AdoptedBooks(a.books, a.heap, o.h);
      Adopted(a.books, a.heap, o.h);
      OneLedgerStep(run, ops, L.UserOp, mid);
      run', ops' := run + [mid], ops + [L.UserOp];
      RecordedIsPut(a.entries, EntryOf(c, o.x), mid, b.books);
      OneLedgerStep(run', ops', L.Put(o.x), b.books);
      run', ops' := run' + [b.books], ops' + [L.Put(o.x)];
    } else {
      var op := if c.CallRegister? then L.Register else L.Abandon(NewBlocks(a.heap, b.heap));
      if !c.CallRegister? {
        Abandoned(a.books, a.heap, b.heap);
      }
      OneLedgerStep(run, ops, op, b.books);
      run', ops' := run + [b.books], ops + [op];
    }
  }
}
