/** What is stored keeps its value: after any run, what a lookup finds reads as the caller of the latest
    registration meant it. */
module StoreReadBack {
  import opened AdiakTypes
  import opened CHeap
  import opened Layout
  import opened Views
  import opened Readings
  import opened DeepCopy
  import opened Records
  import opened Store
  import opened NameValue
  import opened CppValue
  import opened StoreRuns
  import opened StoreHistory
  import L = Ledger

  /** All that a reader has seen is still there with the same content, and is the caller's or record k's. */
  ghost predicate Backed(a: Snap, self: nat, seen: Objs) {
    forall p :: p in seen ==>
      p in a.heap.objs && a.heap.objs[p] == seen[p] && (a.books.owner(p).User? || a.books.owner(p) == L.OfRecord(self))
  }

  lemma BackedAfterRegister(a: Snap, c: Call, b: Snap, self: nat, seen: Objs)
    requires Accounted(a.books, a.heap) && Accounted(b.books, b.heap) && c.CallRegister? && Registers(a, c, b)
    requires Backed(a, self, seen)
    ensures Backed(b, self, seen)
  {
  }

  lemma BackedAfterLeaving(a: Snap, b: Snap, self: nat, seen: Objs)
    requires Accounted(a.books, a.heap) && LeavesBehind(a, b) && Backed(a, self, seen)
    ensures Backed(b, self, seen)
  {
  }

  /** A registration leaves the owner of p as it is unless p is of the record that is overwritten. */
  lemma OwnerAfterRecording(a: Snap, c: Call, x: Handle, h: Heap, b: Snap, self: nat, p: nat)
    requires !c.CallRegister? && Accounted(a.books, a.heap) && Keeps(a, c, x, h, b) && L.Prepared(a.heap, x, h)
    requires a.books.owner(p).User? || a.books.owner(p) == L.OfRecord(self)
    requires var i := IndexOf(a.entries, c.name, 0);
             i < |a.entries| ==> i < |a.books.records| && a.books.records[i].self != self
    ensures b.books.owner(p) == a.books.owner(p)
  {
    var i := IndexOf(a.entries, c.name, 0);
    if i < |a.entries| {
      assert L.RecordOk(a.books.owner, a.books.records[i]);
      assert L.Owns(a.books.records[i], b.books.records[i].self) &&
        L.Owns(a.books.records[i], b.books.records[i].nameAt);
    }
  }

  lemma BackedAfterRecording(a: Snap, c: Call, x: Handle, h: Heap, b: Snap, self: nat, seen: Objs)
    requires !c.CallRegister? && Accounted(a.books, a.heap) && Accounted(b.books, b.heap)
    requires Keeps(a, c, x, h, b) && L.Prepared(a.heap, x, h) && Backed(a, self, seen)
    requires var i := IndexOf(a.entries, c.name, 0);
             i < |a.entries| ==> i < |a.books.records| && a.books.records[i].self != self
    ensures Backed(b, self, seen)
  {
    forall p | p in seen
      ensures p in b.heap.objs && b.heap.objs[p] == seen[p] &&
          (b.books.owner(p).User? || b.books.owner(p) == L.OfRecord(self))
    {
      OwnerAfterRecording(a, c, x, h, b, self, p);
    }
  }

  /** What the new entry is read from. */
  lemma BackedWhenNew(objs: Objs, a: Snap, c: Call, x: Handle, h: Heap, b: Snap, o: L.Owned)
    requires !c.CallRegister? && Accounted(a.books, a.heap) && Accounted(b.books, b.heap) && UsersKept(objs, a) &&
        UsersKept(objs, b)
    requires Keeps(a, c, x, h, b) && L.Prepared(a.heap, x, h) && o in b.books.records && o.held == x
    ensures Backed(b, o.self, Since(objs, a.heap, h))
  {
    assert L.RecordOk(b.books.owner, o);
    forall p | p in Since(objs, a.heap, h)
      ensures p in b.heap.objs && b.heap.objs[p] == h.objs[p] &&
          (b.books.owner(p).User? || b.books.owner(p) == L.OfRecord(o.self))
    {
      if p !in objs {
        assert L.InHandle(x, p) && L.Owns(o, p);
      }
    }
  }

  // ---------------------------------------------------------------- over whole runs

  /** Entries and records are the same things in the same order. */
  ghost predicate Aligned(a: Snap) {
    |a.entries| == |a.books.records| && forall k: nat :: k < |a.entries| ==> HeldAt(a, k)
  }

  ghost predicate HeldAt(a: Snap, k: nat)
    requires k < |a.entries| == |a.books.records|
  {
    a.entries[k].held == a.books.records[k].held
  }

  /** Entry k after n calls is that of call i, the last one that registers a value under its name, and all
      that it was read from then is still there. */
  ghost predicate FromCall(objs: Objs, ss: seq<Snap>, calls: seq<Call>, os: seq<Outcome>, n: nat, k: nat, i: nat)
    requires n <= |calls| == |os| && |ss| == |calls| + 1 && k < |ss[n].entries| == |ss[n].books.records|
  {
    && i < n && os[i].Kept? && !calls[i].CallRegister? && ss[n].entries[k] == EntryOf(calls[i], os[i].x)
    && LastPut(calls, n, ss[n].entries[k].name) == Some(i)
    && Backed(ss[n], ss[n].books.records[k].self, Since(objs, ss[i].heap, os[i].h))
  }

  ghost predicate HasCall(objs: Objs, ss: seq<Snap>, calls: seq<Call>, os: seq<Outcome>, n: nat, k: nat)
    requires n <= |calls| == |os| && |ss| == |calls| + 1 && k < |ss[n].entries| == |ss[n].books.records|
  {
    exists i: nat :: FromCall(objs, ss, calls, os, n, k, i)
  }

  lemma SameRecords(mem: seq<Byte>, objs: Objs, a: Snap, c: Call, o: Outcome, b: Snap)
    requires Makes(mem, objs, a, c, o, b) && !o.Kept? && Aligned(a)
    ensures Aligned(b) && b.entries == a.entries && b.books.records == a.books.records
  {
    assert forall j: nat :: j < |b.entries| ==> HeldAt(a, j) ==> HeldAt(b, j);
  }

  /** After a call that records nothing. */
  lemma OthersStay(mem: seq<Byte>, objs: Objs, a: Snap, c: Call, o: Outcome, b: Snap, k: nat, seen: Objs)
    requires Accounted(a.books, a.heap) && Makes(mem, objs, a, c, o, b) && !o.Kept? && Aligned(a) && k < |a.entries|
    requires Backed(a, a.books.records[k].self, seen)
    ensures b.books.records == a.books.records && Backed(b, b.books.records[k].self, seen)
  {
    SameRecords(mem, objs, a, c, o, b);
    if c.CallRegister? {
      BackedAfterRegister(a, c, b, a.books.records[k].self, seen);
    } else {
      BackedAfterLeaving(a, b, a.books.records[k].self, seen);
    }
  }

  /** Where the record that is at k after a registration was before, or None for the registered one. */
  function PlaceBefore(a: Snap, name: string, k: nat): Option<nat> {
    var i := IndexOf(a.entries, name, 0);
    if i < |a.entries| then (if k == i then None else Some(k))
    else if k == 0 then None else Some(k - 1)
  }

  lemma RecordedPlaces(a: Snap, c: Call, x: Handle, h: Heap, b: Snap, k: nat)
    requires !c.CallRegister? && Keeps(a, c, x, h, b) && Aligned(a) && k < |b.entries|
    ensures |b.entries| == |b.books.records|
    ensures match PlaceBefore(a, c.name, k)
            case Some(j) => j < |a.entries| && b.entries[k] == a.entries[j] && b.books.records[k] == a.books.records[j]
            case None => b.entries[k] == EntryOf(c, x) && b.books.records[k].held == x
  {
  }

  lemma RecordedAligned(a: Snap, c: Call, x: Handle, h: Heap, b: Snap)
    requires !c.CallRegister? && Keeps(a, c, x, h, b) && Aligned(a)
    ensures Aligned(b)
  {
    assert |b.entries| == |b.books.records|;
    forall k: nat | k < |b.entries| ensures HeldAt(b, k) {
      RecordedPlaces(a, c, x, h, b, k);
      var j := PlaceBefore(a, c.name, k);
      assert j.Some? ==> HeldAt(a, j.value);
    }
  }

  /** After a registration. */
  lemma RecordedStay(a: Snap, c: Call, x: Handle, h: Heap, b: Snap, k: nat, j: nat, seen: Objs)
    requires !c.CallRegister? && Accounted(a.books, a.heap) && Accounted(b.books, b.heap) && Aligned(a)
    requires Keeps(a, c, x, h, b) && L.Prepared(a.heap, x, h) && k < |b.entries| == |b.books.records|
    requires PlaceBefore(a, c.name, k) == Some(j) && j < |a.books.records| && Backed(a, a.books.records[j].self, seen)
    requires b.books.records[k] == a.books.records[j]
    ensures Backed(b, b.books.records[k].self, seen)
  {
    var i := IndexOf(a.entries, c.name, 0);
    if i < |a.entries| {
      assert i != j && a.books.records[i].self != a.books.records[j].self;
    }
    BackedAfterRecording(a, c, x, h, b, a.books.records[j].self, seen);
  }

  lemma NextAligned(mem: seq<Byte>, objs: Objs, ss: seq<Snap>, calls: seq<Call>, os: seq<Outcome>, n: nat)
    requires Steps(mem, objs, ss, calls, os) && n < |calls| && Aligned(ss[n])
    ensures Aligned(ss[n + 1])
  {
    assert MakesAt(mem, objs, ss, calls, os, n);
    if os[n].Kept? {
      RecordedAligned(ss[n], calls[n], os[n].x, os[n].h, ss[n + 1]);
    } else {
      SameRecords(mem, objs, ss[n], calls[n], os[n], ss[n + 1]);
    }
  }

  /** The next call does not register a value under its name. */
  lemma StaysLast(mem: seq<Byte>, heap: Heap, ss: seq<Snap>, calls: seq<Call>, os: seq<Outcome>, n: nat, k: nat, j: nat)
    requires IsTrace(mem, heap, ss, calls, os) && n < |calls| && Aligned(ss[n])
    requires k < |ss[n + 1].entries| && j < |ss[n].entries|
    requires if os[n].Kept? then !calls[n].CallRegister? && PlaceBefore(ss[n], calls[n].name, k) == Some(j) else k == j
    ensures ss[n + 1].entries[k] == ss[n].entries[j]
    ensures LastPut(calls, n + 1, ss[n].entries[j].name) == LastPut(calls, n, ss[n].entries[j].name)
  {
    var name := ss[n].entries[j].name;
    KeptIfPuts(mem, heap.objs, ss, calls, os, n, name);
    if os[n].Kept? {
      KeptIsGiven(mem, heap.objs, ss, calls, os, n);
      RecordedPlaces(ss[n], calls[n], os[n].x, os[n].h, ss[n + 1], k);
      IndexOverRuns(mem, heap, ss, calls, os, n, name, CATEGORY_ALL);
      OtherName(ss[n].entries, calls[n].name, j);
    } else {
      assert MakesAt(mem, heap.objs, ss, calls, os, n);
      SameRecords(mem, heap.objs, ss[n], calls[n], os[n], ss[n + 1]);
    }
  }

  lemma OtherName(es: seq<Entry>, name: string, j: nat)
    requires NamesUnique(es) && j < |es| && j != IndexOf(es, name, 0)
    ensures es[j].name != name
  {
  }

  /** What was read from an entry that the next call does not register is still there. */
  lemma StaysBacked(mem: seq<Byte>, heap: Heap, ss: seq<Snap>, calls: seq<Call>, os: seq<Outcome>, n: nat, k: nat,
      j: nat, seen: Objs)
    requires IsTrace(mem, heap, ss, calls, os) && n < |calls| && Aligned(ss[n]) && Aligned(ss[n + 1])
    requires k < |ss[n + 1].entries| && j < |ss[n].entries| && Backed(ss[n], ss[n].books.records[j].self, seen)
    requires if os[n].Kept? then !calls[n].CallRegister? && PlaceBefore(ss[n], calls[n].name, k) == Some(j) else k == j
    ensures Backed(ss[n + 1], ss[n + 1].books.records[k].self, seen)
  {
    TraceKeeps(mem, heap, ss, calls, os, n);
    TraceKeeps(mem, heap, ss, calls, os, n + 1);
    assert MakesAt(mem, heap.objs, ss, calls, os, n);
    if os[n].Kept? {
      RecordedPlaces(ss[n], calls[n], os[n].x, os[n].h, ss[n + 1], k);
      RecordedStay(ss[n], calls[n], os[n].x, os[n].h, ss[n + 1], k, j, seen);
    } else {
      OthersStay(mem, heap.objs, ss[n], calls[n], os[n], ss[n + 1], k, seen);
    }
  }

  /** An entry that the next call does not register is still from the call that it was from. */
  lemma OldEntryHasCall(mem: seq<Byte>, heap: Heap, ss: seq<Snap>, calls: seq<Call>, os: seq<Outcome>, n: nat, k: nat,
      j: nat)
    requires IsTrace(mem, heap, ss, calls, os) && n < |calls| && Aligned(ss[n]) && Aligned(ss[n + 1])
    requires k < |ss[n + 1].entries| && j < |ss[n].entries| && HasCall(heap.objs, ss, calls, os, n, j)
    requires if os[n].Kept? then !calls[n].CallRegister? && PlaceBefore(ss[n], calls[n].name, k) == Some(j) else k == j
    ensures HasCall(heap.objs, ss, calls, os, n + 1, k)
  {
    var i: nat :| FromCall(heap.objs, ss, calls, os, n, j, i);
    StaysLast(mem, heap, ss, calls, os, n, k, j);
    StaysBacked(mem, heap, ss, calls, os, n, k, j, Since(heap.objs, ss[i].heap, os[i].h));
    assert FromCall(heap.objs, ss, calls, os, n + 1, k, i);
  }

  /** The entry that a call registers is from that call. */
  lemma NewEntryHasCall(mem: seq<Byte>, heap: Heap, ss: seq<Snap>, calls: seq<Call>, os: seq<Outcome>, n: nat, k: nat)
    requires IsTrace(mem, heap, ss, calls, os) && n < |calls| && Aligned(ss[n]) && Aligned(ss[n + 1])
    requires k < |ss[n + 1].entries| && os[n].Kept? && !calls[n].CallRegister? &&
        PlaceBefore(ss[n], calls[n].name, k) == None
    ensures HasCall(heap.objs, ss, calls, os, n + 1, k)
  {
    TraceKeeps(mem, heap, ss, calls, os, n);
    TraceKeeps(mem, heap, ss, calls, os, n + 1);
    assert MakesAt(mem, heap.objs, ss, calls, os, n);
    RecordedPlaces(ss[n], calls[n], os[n].x, os[n].h, ss[n + 1], k);
    KeptIfPuts(mem, heap.objs, ss, calls, os, n, calls[n].name);
    BackedWhenNew(heap.objs, ss[n], calls[n], os[n].x, os[n].h, ss[n + 1], ss[n + 1].books.records[k]);
    assert FromCall(heap.objs, ss, calls, os, n + 1, k, n);
  }

  lemma KeptIsGiven(mem: seq<Byte>, objs: Objs, ss: seq<Snap>, calls: seq<Call>, os: seq<Outcome>, n: nat)
    requires Steps(mem, objs, ss, calls, os) && n < |calls| && os[n].Kept?
    ensures TypeOf(calls[n]).Some? && Gives(calls[n], mem, objs, ss[n].heap, os[n].x, os[n].h)
    ensures Keeps(ss[n], calls[n], os[n].x, os[n].h, ss[n + 1])
  {
    assert MakesAt(mem, objs, ss, calls, os, n);
  }

  lemma {:induction false} EntriesHaveCalls(mem: seq<Byte>, heap: Heap, ss: seq<Snap>, calls: seq<Call>,
      os: seq<Outcome>, n: nat)
    requires IsTrace(mem, heap, ss, calls, os) && n <= |calls|
    ensures Aligned(ss[n]) && forall k: nat :: k < |ss[n].entries| ==> HasCall(heap.objs, ss, calls, os, n, k)
  {
    if n > 0 {
      EntriesHaveCalls(mem, heap, ss, calls, os, n - 1);
      NextAligned(mem, heap.objs, ss, calls, os, n - 1);
      forall k: nat | k < |ss[n].entries| ensures HasCall(heap.objs, ss, calls, os, n, k) {
        EntryHasCall(mem, heap, ss, calls, os, n - 1, k);
      }
    }
  }

  lemma EntryHasCall(mem: seq<Byte>, heap: Heap, ss: seq<Snap>, calls: seq<Call>, os: seq<Outcome>, n: nat, k: nat)
    requires IsTrace(mem, heap, ss, calls, os) && n < |calls| && Aligned(ss[n]) && Aligned(ss[n + 1]) &&
        k < |ss[n + 1].entries|
    requires forall j: nat :: j < |ss[n].entries| ==> HasCall(heap.objs, ss, calls, os, n, j)
    ensures HasCall(heap.objs, ss, calls, os, n + 1, k)
  {
    if os[n].Kept? {
      KeptIsGiven(mem, heap.objs, ss, calls, os, n);
      RecordedPlaces(ss[n], calls[n], os[n].x, os[n].h, ss[n + 1], k);
      var j := PlaceBefore(ss[n], calls[n].name, k);
      if j == None {
        NewEntryHasCall(mem, heap, ss, calls, os, n, k);
      } else {
        OldEntryHasCall(mem, heap, ss, calls, os, n, k, j.value);
      }
    } else {
      assert MakesAt(mem, heap.objs, ss, calls, os, n);
      SameRecords(mem, heap.objs, ss[n], calls[n], os[n], ss[n + 1]);
      OldEntryHasCall(mem, heap, ss, calls, os, n, k, k);
    }
  }

  lemma LookupHasCall(mem: seq<Byte>, heap: Heap, ss: seq<Snap>, calls: seq<Call>, os: seq<Outcome>, n: nat,
      name: string)
    returns (i: nat, self: nat)
    requires IsTrace(mem, heap, ss, calls, os) && n <= |calls| && Lookup(ss[n].entries, name).Some?
    ensures i < n && os[i].Kept? && !calls[i].CallRegister? &&
        Lookup(ss[n].entries, name) == Some(EntryOf(calls[i], os[i].x))
    ensures Backed(ss[n], self, Since(heap.objs, ss[i].heap, os[i].h))
    ensures LastPut(calls, n, name) == Some(i)
  {
    EntriesHaveCalls(mem, heap, ss, calls, os, n);
    var k := IndexOf(ss[n].entries, name, 0);
    assert HasCall(heap.objs, ss, calls, os, n, k);
    i :| FromCall(heap.objs, ss, calls, os, n, k, i);
    self := ss[n].books.records[k].self;
  }

  /** What the caller of a registration means by its value. */
  function MeaningOf(c: Call, mem: seq<Byte>, users: Objs, t: DType): Option<Tree>
    requires !c.CallRegister?
  {
    if c.CallNamevalue? then Meaning(users, mem, t, c.arg) else Some(c.obj.d)
  }

  /** The value is not kept as it is: a number that is longer than a %lu or %llu with a length says, an unsigned
      number of one or two bytes in a container with its top bit set, or a C++ object with a terminator in a
      string or with a date that does not fit in a long. */
  predicate Distorts(c: Call, mem: seq<Byte>, t: DType)
    requires !c.CallRegister?
  {
    if c.CallNamevalue? then Truncates(c.form, c.arg) || Widens(mem, t, c.arg) else !c.obj.exact
  }

  /** What a call has stored reads, out of objs and with the documented casts, as its caller meant it, if and
      only if the call does not distort it. */
  ghost predicate ReadsOf(c: Call, x: Handle, mem: seq<Byte>, users: Objs, objs: Objs)
    requires !c.CallRegister?
  {
    ReadBack(objs, mem, x.dtype, x.value) == MeaningOf(c, mem, users, x.dtype) <==> !Distorts(c, mem, x.dtype)
  }

  /** The form of the call is a possible one. */
  predicate SoundCall(c: Call) {
    && (c.CallNamevalue? ==> SoundForm(c.form))
    && (c.CallValue? ==> Shaped(c.obj.dtype))
  }

  /** After any run, what a lookup finds is the latest registration under the name, and it reads as its caller
      meant it unless the call has distorted it. */
  lemma ReadBackOverRuns(mem: seq<Byte>, heap: Heap, ss: seq<Snap>, calls: seq<Call>, os: seq<Outcome>, n: nat,
      name: string)
    returns (i: nat)
    requires IsTrace(mem, heap, ss, calls, os) && n <= |calls| && Lookup(ss[n].entries, name).Some?
    requires forall k :: 0 <= k < |calls| ==> SoundCall(calls[k]) && Possible(calls[k], mem, heap.objs)
    ensures LastPut(calls, n, name) == Some(i) && os[i].Kept? && !calls[i].CallRegister?
    ensures TypeOf(calls[i]) == Some(os[i].x.dtype)
    ensures Lookup(ss[n].entries, name) == Latest(PutsOf(calls, os, n), name)
         == Some(Entry(name, calls[i].category, calls[i].subcategory, os[i].x))
    ensures ReadsOf(calls[i], os[i].x, mem, heap.objs, ss[n].heap.objs)
  {
    var self;
    i, self := LookupHasCall(mem, heap, ss, calls, os, n, name);
    IndexOverRuns(mem, heap, ss, calls, os, n, name, CATEGORY_ALL);
    KeptIsGiven(mem, heap.objs, ss, calls, os, i);
    EntryReads(mem, heap.objs, ss[n], calls[i], os[i].x, ss[i].heap, os[i].h, self);
  }

  lemma EntryReads(mem: seq<Byte>, objs: Objs, a: Snap, c: Call, x: Handle, h0: Heap, h: Heap, self: nat)
    requires TypeOf(c).Some? && SoundCall(c) && Possible(c, mem, objs)
    requires Gives(c, mem, objs, h0, x, h) && Backed(a, self, Since(objs, h0, h))
    ensures ReadsOf(c, x, mem, objs, a.heap.objs)
  {
    WalkExtends(Since(objs, h0, h), a.heap.objs, mem, x.dtype, x.value);
    if c.CallNamevalue? {
      ReadsAsMeant(c.form, c.arg, mem, objs, a.heap.objs, x.value);
    }
  }

  lemma CallsAreSound(calls: seq<Call>)
    requires forall i :: 0 <= i < |calls| ==> Written(calls[i])
    ensures forall i :: 0 <= i < |calls| ==> SoundCall(calls[i])
  {
    forall i | 0 <= i < |calls| ensures SoundCall(calls[i]) {
      if calls[i].CallNamevalue? {
        FormIsSound(calls[i].s, calls[i].dims);
      } else if calls[i].CallValue? {
        FinalSpan(calls[i].obj.c, calls[i].obj.d);
      }
    }
  }

  /** What a lookup at the end of a run finds. */
  ghost predicate Finds(mem: seq<Byte>, heap: Heap, ss: seq<Snap>, calls: seq<Call>, os: seq<Outcome>, name: string,
      e: Option<Entry>)
    requires |os| == |calls| && |ss| == |calls| + 1
  {
    match LastPut(calls, |calls|, name)
    case None => e == None
    case Some(i) =>
      && os[i].Kept? && !calls[i].CallRegister?
      && e == Some(Entry(name, calls[i].category, calls[i].subcategory, os[i].x))
      && ReadsOf(calls[i], os[i].x, mem, heap.objs, ss[|calls|].heap.objs)
  }

  lemma LookupFinds(mem: seq<Byte>, heap: Heap, ss: seq<Snap>, calls: seq<Call>, os: seq<Outcome>, name: string)
    requires IsTrace(mem, heap, ss, calls, os)
    requires forall k :: 0 <= k < |calls| ==> Written(calls[k]) && Possible(calls[k], mem, heap.objs)
    ensures Finds(mem, heap, ss, calls, os, name, Lookup(ss[|calls|].entries, name))
  {
    CallsAreSound(calls);
    IndexOverRuns(mem, heap, ss, calls, os, |calls|, name, CATEGORY_ALL);
    LatestIfPut(mem, heap.objs, ss, calls, os, |calls|, name);
    if Lookup(ss[|calls|].entries, name).Some? {
      var i := ReadBackOverRuns(mem, heap, ss, calls, os, |calls|, name);
    }
  }

  /** Any calls, and then adiak_get_nameval: it finds something exactly if some call has registered a value
      under the name, and then it is that of the last such call, and a walk through it, with the documented
      casts, shows what its caller passed. */
  method RunAndGet(calls: seq<Call>, mem: seq<Byte>, reportable: bool, heap: Heap, name: string)
    returns (store: Adiak, e: Option<Entry>, ghost ss: seq<Snap>, ghost os: seq<Outcome>)
    requires heap.Valid() && forall k :: 0 <= k < |calls| ==> Written(calls[k]) && Possible(calls[k], mem, heap.objs)
    ensures fresh(store) && store.Valid() && IsTrace(mem, heap, ss, calls, os) && Now(store) == ss[|calls|]
    ensures Finds(mem, heap, ss, calls, os, name, e)
  {
    var results;
    store, results, ss, os := Run(calls, mem, reportable, heap);
    e := store.GetNameval(name);
    LookupFinds(mem, heap, ss, calls, os, name);
  }
}
