/** Who owns which block of the heap while src/adiak.c runs, step by step and over whole runs: the
    caller, a record, a tool, or nobody any more. */
module Ledger {
  import opened AdiakTypes
  import opened CHeap
  import opened DeepCopy
  import opened Records

  /** Of a live block: the caller's, of the record or the tool at self, or reachable by no one. */
  datatype Owner = Nobody | User | OfRecord(self: nat) | OfTool(self: nat) | Lost

  /** The blocks of a record: the node, its name, its info, its subcategory, and what it holds. */
  datatype Owned = Owned(self: nat, nameAt: nat, infoAt: nat, subAt: Option<nat>, held: Handle)

  datatype Books = Books(owner: nat -> Owner, records: seq<Owned>, tools: seq<nat>)

  predicate InHandle(h: Handle, p: nat) {
    || p == h.cell
    || h.base <= p < h.base + ValueSpan(h.dtype, h.value)
    || h.typeAt <= p < h.typeAt + Span(h.dtype)
  }

  /** Value and type are complete and do not share blocks. */
  ghost predicate Complete(h: Handle) {
    && Placed(h.dtype, h.value, h.base)
    && !(h.base <= h.cell < h.base + ValueSpan(h.dtype, h.value))
    && !(h.typeAt <= h.cell < h.typeAt + Span(h.dtype))
    && Apart(h.base, ValueSpan(h.dtype, h.value), h.typeAt, Span(h.dtype))
  }

  /** n blocks from a and m blocks from b on have none in common. */
  predicate Apart(a: nat, n: nat, b: nat, m: nat) {
    n == 0 || m == 0 || a + n <= b || b + m <= a
  }

  /** The handle is complete and its blocks are all that h has more than h0. */
  ghost predicate Prepared(h0: Heap, x: Handle, h: Heap) {
    && Complete(x) && h0.GrowsTo(h) && h.next == h0.next + 1 + ValueSpan(x.dtype, x.value) + Span(x.dtype)
    && (forall p: nat :: InHandle(x, p) ==> h0.next <= p)
    && (forall p: nat :: p in h.objs <==> p in h0.objs || InHandle(x, p))
  }

  predicate InFrame(o: Owned, p: nat) {
    p == o.self || p == o.nameAt || p == o.infoAt || o.subAt == Some(p)
  }

  predicate Owns(o: Owned, p: nat) {
    InFrame(o, p) || InHandle(o.held, p)
  }

  /** A block of the record that releasing it leaves behind: the zero-length subtype array of an empty tuple. */
  predicate Leaks(o: Owned, p: nat) {
    IsLost(o.held.dtype, o.held.typeAt, p)
  }

  /** The blocks of a record are all different. */
  ghost predicate Separate(o: Owned) {
    && Complete(o.held)
    && (forall p :: InFrame(o, p) ==> !InHandle(o.held, p))
    && o.self != o.nameAt && o.self != o.infoAt && o.nameAt != o.infoAt
    && o.subAt != Some(o.self) && o.subAt != Some(o.nameAt) && o.subAt != Some(o.infoAt)
  }

  ghost predicate RecordOk(owner: nat -> Owner, o: Owned) {
    Separate(o) && forall p: nat :: Owns(o, p) <==> owner(p) == OfRecord(o.self)
  }

  ghost predicate HasRecord(b: Books, self: nat) {
    exists i :: 0 <= i < |b.records| && b.records[i].self == self
  }

  /** Every record owns exactly its blocks and every tool its own, and nothing else is owned by one. */
  ghost predicate Balanced(b: Books) {
    && (forall i :: 0 <= i < |b.records| ==> RecordOk(b.owner, b.records[i]))
    && (forall i, j :: 0 <= i < j < |b.records| ==> b.records[i].self != b.records[j].self)
    && (forall p: nat :: b.owner(p).OfRecord? ==> HasRecord(b, b.owner(p).self))
    && (forall p: nat :: b.owner(p).OfTool? <==> p in b.tools)
    && (forall p: nat :: b.owner(p).OfTool? ==> b.owner(p).self == p)
    && (forall j, k :: 0 <= j < k < |b.tools| ==> b.tools[j] != b.tools[k])
  }

  /** The caller may hand this over: all its blocks are the caller's. */
  ghost predicate HandedOver(b: Books, h: Handle) {
    Complete(h) && forall p: nat :: InHandle(h, p) ==> b.owner(p).User?
  }

  // ---------------------------------------------------------------- the steps

  /** The owner of p once before has been released and o has taken its blocks. */
  function OwnerAfter(was: Owner, before: Option<Owned>, o: Owned, p: nat): Owner {
    if Owns(o, p) then OfRecord(o.self)
    else if before.Some? && Owns(before.value, p) then (if Leaks(before.value, p) then Lost else Nobody)
    else was
  }

  /** A registration under a new name. */
  ghost predicate Adds(b: Books, o: Owned, c: Books) {
    && HandedOver(b, o.held) && Separate(o) && (forall p :: InFrame(o, p) ==> b.owner(p).Nobody?)
    && c.records == [o] + b.records && c.tools == b.tools
    && forall p: nat :: c.owner(p) == OwnerAfter(b.owner(p), None, o, p)
  }

  /** A registration under a known name: the node and the name stay, everything else is replaced. */
  ghost predicate Replaces(b: Books, i: nat, o: Owned, c: Books) {
    && i < |b.records| && HandedOver(b, o.held) && Separate(o)
    && o.self == b.records[i].self && o.nameAt == b.records[i].nameAt
    && (forall p :: InFrame(o, p) && p != o.self && p != o.nameAt ==> b.owner(p).Nobody?)
    && c.records == b.records[i := o] && c.tools == b.tools
    && forall p: nat :: c.owner(p) == OwnerAfter(b.owner(p), Some(b.records[i]), o, p)
  }

  ghost predicate Registers(b: Books, t: nat, c: Books) {
    && b.owner(t).Nobody? && c.records == b.records && c.tools == [t] + b.tools
    && forall p: nat :: c.owner(p) == if p == t then OfTool(t) else b.owner(p)
  }

  /** The owner of p after adiak_clean, given the records there were. */
  ghost predicate CleanOwner(b: Books, was: Owner, p: nat, now: Owner) {
    match was
    case OfTool(_) => now == Nobody
    case OfRecord(_) => now == if LeaksInSome(b.records, p) then Lost else Nobody
    case _ => now == was
  }

  ghost predicate LeaksInSome(os: seq<Owned>, p: nat) {
    exists i :: 0 <= i < |os| && Owns(os[i], p) && Leaks(os[i], p)
  }

  /** adiak_clean */
  ghost predicate Cleans(b: Books, c: Books) {
    && c.records == [] && c.tools == []
    && forall p: nat :: CleanOwner(b, b.owner(p), p, c.owner(p))
  }

  /** The caller allocates and frees blocks of its own. */
  ghost predicate UserActs(b: Books, c: Books) {
    && c.records == b.records && c.tools == b.tools
    && forall p: nat :: c.owner(p) == b.owner(p) || (b.owner(p) in {Nobody, User} && c.owner(p) in {Nobody, User})
  }

  /** A call leaves blocks behind that it has allocated and that no pointer leads to. */
  ghost predicate Abandons(b: Books, ps: set<nat>, c: Books) {
    && c.records == b.records && c.tools == b.tools && (forall p :: p in ps ==> b.owner(p).Nobody?)
    && forall p: nat :: c.owner(p) == if p in ps then Lost else b.owner(p)
  }

  // ---------------------------------------------------------------- every step keeps the balance

  lemma OtherRecordOk(b: Books, c: Books, o: Owned, s: nat)
    requires RecordOk(b.owner, o) && o.self != s
    requires forall p: nat ::
        c.owner(p) == b.owner(p) || (b.owner(p) != OfRecord(o.self) && c.owner(p) != OfRecord(o.self))
    ensures RecordOk(c.owner, o)
  {
  }

  /** The node of a new record is a new block. */
  lemma NodeIsNew(b: Books, o: Owned, c: Books)
    requires Balanced(b) && Adds(b, o, c)
    ensures (forall i :: 0 <= i < |b.records| ==> b.records[i].self != o.self)
    ensures forall p: nat :: b.owner(p) != OfRecord(o.self)
  {
    assert Owns(o, o.self) && b.owner(o.self).Nobody?;
    forall i | 0 <= i < |b.records| ensures b.records[i].self != o.self {
      assert RecordOk(b.owner, b.records[i]) && Owns(b.records[i], b.records[i].self);
    }
  }

  lemma AddedRecordsOk(b: Books, o: Owned, c: Books)
    requires Balanced(b) && Adds(b, o, c)
    ensures forall i :: 0 <= i < |c.records| ==> RecordOk(c.owner, c.records[i])
  {
    NodeIsNew(b, o, c);
    forall i | 0 <= i < |c.records| ensures RecordOk(c.owner, c.records[i]) {
      if i > 0 {
        assert c.records[i] == b.records[i - 1] && RecordOk(b.owner, b.records[i - 1]);
      }
    }
  }

  lemma AddedOwners(b: Books, o: Owned, c: Books)
    requires Balanced(b) && Adds(b, o, c)
    ensures forall p: nat :: c.owner(p).OfRecord? ==> HasRecord(c, c.owner(p).self)
  {
    forall p: nat | c.owner(p).OfRecord? ensures HasRecord(c, c.owner(p).self) {
      if Owns(o, p) {
        assert c.records[0].self == o.self;
      } else {
        assert HasRecord(b, b.owner(p).self);
        var i :| 0 <= i < |b.records| && b.records[i].self == b.owner(p).self;
        assert c.records[i + 1].self == c.owner(p).self;
      }
    }
  }

  lemma AddsKeeps(b: Books, o: Owned, c: Books)
    requires Balanced(b) && Adds(b, o, c)
    ensures Balanced(c)
  {
    NodeIsNew(b, o, c);
    AddedRecordsOk(b, o, c);
    AddedOwners(b, o, c);
  }

  lemma ReplacesKeeps(b: Books, i: nat, o: Owned, c: Books)
    requires Balanced(b) && Replaces(b, i, o, c)
    ensures Balanced(c)
  {
    assert RecordOk(b.owner, b.records[i]);
    forall j | 0 <= j < |c.records| ensures RecordOk(c.owner, c.records[j]) {
      if j != i {
        assert RecordOk(b.owner, b.records[j]) && b.records[j].self != o.self;
        OtherRecordOk(b, c, b.records[j], o.self);
      }
    }
    forall p: nat | c.owner(p).OfRecord?
      ensures exists j :: 0 <= j < |c.records| && c.records[j].self == c.owner(p).self
    {
      ReplacedOwners(b, i, o, c, p);
    }
  }

  lemma ReplacedOwners(b: Books, i: nat, o: Owned, c: Books, p: nat)
    requires Balanced(b) && Replaces(b, i, o, c) && c.owner(p).OfRecord?
    ensures exists j :: 0 <= j < |c.records| && c.records[j].self == c.owner(p).self
  {
    if Owns(o, p) {
      assert c.records[i].self == o.self;
    } else {
      var j :| 0 <= j < |b.records| && b.records[j].self == b.owner(p).self;
      assert c.records[j].self == c.owner(p).self;
    }
  }

  lemma RegistersKeeps(b: Books, t: nat, c: Books)
    requires Balanced(b) && Registers(b, t, c)
    ensures Balanced(c)
  {
    forall i | 0 <= i < |b.records| ensures RecordOk(c.owner, b.records[i]) {
      assert RecordOk(b.owner, b.records[i]);
    }
  }

  lemma CleansKeeps(b: Books, c: Books)
    requires Balanced(b) && Cleans(b, c)
    ensures Balanced(c) && forall p: nat :: c.owner(p) in {Nobody, User, Lost}
  {
  }

  lemma UserActsKeeps(b: Books, c: Books)
    requires Balanced(b) && UserActs(b, c)
    ensures Balanced(c)
  {
    forall i | 0 <= i < |b.records| ensures RecordOk(c.owner, b.records[i]) {
      assert RecordOk(b.owner, b.records[i]);
    }
  }

  lemma AbandonsKeeps(b: Books, ps: set<nat>, c: Books)
    requires Balanced(b) && Abandons(b, ps, c)
    ensures Balanced(c)
  {
    forall i | 0 <= i < |b.records| ensures RecordOk(c.owner, b.records[i]) {
      assert RecordOk(b.owner, b.records[i]);
    }
  }

  // ---------------------------------------------------------------- whole runs

  datatype Op = Put(h: Handle) | Register | Clean | UserOp | Abandon(ps: set<nat>)

  /** c is what op can make of b. */
  ghost predicate Step(b: Books, op: Op, c: Books) {
    match op
    case Put(h) => exists o: Owned :: o.held == h && (Adds(b, o, c) || exists i: nat :: Replaces(b, i, o, c))
    case Register => exists t: nat :: Registers(b, t, c)
    case Clean => Cleans(b, c)
    case UserOp => UserActs(b, c)
    case Abandon(ps) => Abandons(b, ps, c)
  }

  /** Before the first call nothing but the caller's own blocks is there. */
  ghost predicate IsStart(b: Books) {
    b.records == [] && b.tools == [] && forall p: nat :: b.owner(p) in {Nobody, User}
  }

  ghost predicate IsRun(run: seq<Books>, ops: seq<Op>) {
    && |run| == |ops| + 1 && IsStart(run[0])
    && forall i :: 0 <= i < |ops| ==> Step(run[i], ops[i], run[i + 1])
  }

  /** In the first n operations a type was handed over that has p as the array of an empty tuple, or p was
      left behind. */
  ghost predicate LeakOf(ops: seq<Op>, n: nat, p: nat)
    requires n <= |ops|
  {
    exists i :: 0 <= i < n && LeakIn(ops[i], p)
  }

  predicate LeakIn(op: Op, p: nat) {
    (op.Put? && IsLost(op.h.dtype, op.h.typeAt, p)) || (op.Abandon? && p in op.ps)
  }

  lemma StepKeeps(b: Books, op: Op, c: Books)
    requires Balanced(b) && Step(b, op, c)
    ensures Balanced(c)
  {
    match op
    case Put(h) =>
      var o: Owned :| o.held == h && (Adds(b, o, c) || exists i: nat :: Replaces(b, i, o, c));
      if Adds(b, o, c) {
        AddsKeeps(b, o, c);
      } else {
        var i: nat :| Replaces(b, i, o, c);
        ReplacesKeeps(b, i, o, c);
      }
    case Register =>
      var t: nat :| Registers(b, t, c);
      RegistersKeeps(b, t, c);
    case Clean => CleansKeeps(b, c);
    case UserOp => UserActsKeeps(b, c);
    case Abandon(ps) => AbandonsKeeps(b, ps, c);
  }

  lemma {:induction false} RunKeeps(run: seq<Books>, ops: seq<Op>, n: nat)
    requires IsRun(run, ops) && n <= |ops|
    ensures Balanced(run[n])
  {
    if n > 0 {
      RunKeeps(run, ops, n - 1);
      StepKeeps(run[n - 1], ops[n - 1], run[n]);
    }
  }

  /** A record holds what was handed over once. */
  ghost predicate WasPut(ops: seq<Op>, n: nat, h: Handle)
    requires n <= |ops|
  {
    exists i :: 0 <= i < n && ops[i] == Put(h)
  }

  lemma {:induction false} HeldWasPut(run: seq<Books>, ops: seq<Op>, n: nat)
    requires IsRun(run, ops) && n <= |ops|
    ensures forall i :: 0 <= i < |run[n].records| ==> WasPut(ops, n, run[n].records[i].held)
  {
    if n > 0 {
      HeldWasPut(run, ops, n - 1);
      var b, c := run[n - 1], run[n];
      assert Step(b, ops[n - 1], c);
      forall i | 0 <= i < |c.records| ensures WasPut(ops, n, c.records[i].held) {
        if c.records[i] in b.records {
          var k :| 0 <= k < |b.records| && b.records[k] == c.records[i];
          assert WasPut(ops, n - 1, b.records[k].held);
        } else {
          assert ops[n - 1] == Put(c.records[i].held);
        }
      }
    }
  }

  /** A leaking block is lost already or still belongs to a record. */
  ghost predicate LostOrHeld(b: Books, p: nat) {
    b.owner(p) == Lost || LeaksInSome(b.records, p)
  }

  lemma LeakStays(b: Books, op: Op, c: Books, p: nat)
    requires Balanced(b) && Step(b, op, c)
    requires LostOrHeld(b, p) || LeakIn(op, p)
    ensures LostOrHeld(c, p)
  {
    match op
    case Put(h) =>
      var o: Owned :| o.held == h && (Adds(b, o, c) || exists i: nat :: Replaces(b, i, o, c));
      LostIsWithin(h.dtype, h.typeAt, p);
      if Adds(b, o, c) {
        LeakStaysAdd(b, o, c, p);
      } else {
        var i: nat :| Replaces(b, i, o, c);
        LeakStaysReplace(b, i, o, c, p);
      }
    case Register =>
    case Clean =>
      if b.owner(p) != Lost {
        var i :| 0 <= i < |b.records| && Owns(b.records[i], p) && Leaks(b.records[i], p);
        assert RecordOk(b.owner, b.records[i]);
        assert CleanOwner(b, b.owner(p), p, c.owner(p));
      }
    case UserOp =>
    case Abandon(ps) =>
  }

  lemma LeakStaysAdd(b: Books, o: Owned, c: Books, p: nat)
    requires Adds(b, o, c) && (LostOrHeld(b, p) || (Owns(o, p) && Leaks(o, p)))
    ensures LostOrHeld(c, p)
  {
    if Owns(o, p) && Leaks(o, p) {
      assert c.records[0] == o;
    } else if b.owner(p) != Lost {
      var i :| 0 <= i < |b.records| && Owns(b.records[i], p) && Leaks(b.records[i], p);
      assert c.records[i + 1] == b.records[i];
    }
  }

  lemma LeakStaysReplace(b: Books, i: nat, o: Owned, c: Books, p: nat)
    requires Balanced(b) && Replaces(b, i, o, c) && (LostOrHeld(b, p) || (Owns(o, p) && Leaks(o, p)))
    ensures LostOrHeld(c, p)
  {
    assert RecordOk(b.owner, b.records[i]);
    assert Owns(b.records[i], o.self) && Owns(b.records[i], o.nameAt);
    if Owns(o, p) && Leaks(o, p) {
      assert c.records[i] == o;
    } else if b.owner(p) != Lost {
      var j :| 0 <= j < |b.records| && Owns(b.records[j], p) && Leaks(b.records[j], p);
      if j != i {
        assert c.records[j] == b.records[j];
      } else {
        LostIsWithin(b.records[i].held.dtype, b.records[i].held.typeAt, p);
        assert InHandle(b.records[i].held, p) && !Owns(o, p);
      }
    }
  }

  lemma {:induction false} LeakIsLostOrHeld(run: seq<Books>, ops: seq<Op>, n: nat, p: nat)
    requires IsRun(run, ops) && n <= |ops|
    ensures LeakOf(ops, n, p) ==> LostOrHeld(run[n], p)
  {
    if n > 0 && LeakOf(ops, n, p) {
      RunKeeps(run, ops, n - 1);
      LeakIsLostOrHeld(run, ops, n - 1, p);
      assert Step(run[n - 1], ops[n - 1], run[n]);
      LeakStays(run[n - 1], ops[n - 1], run[n], p);
    }
  }

  lemma LostIsNew(b: Books, op: Op, c: Books, p: nat)
    requires Step(b, op, c) && c.owner(p) == Lost
    ensures LostOrHeld(b, p) || (op.Abandon? && p in op.ps)
  {
    if op.Clean? {
      assert CleanOwner(b, b.owner(p), p, c.owner(p));
    }
  }

  lemma {:induction false} LostIsLeak(run: seq<Books>, ops: seq<Op>, n: nat, p: nat)
    requires IsRun(run, ops) && n <= |ops| && LostOrHeld(run[n], p)
    ensures LeakOf(ops, n, p)
  {
    if LeaksInSome(run[n].records, p) {
      HeldWasPut(run, ops, n);
      var i :| 0 <= i < |run[n].records| && Owns(run[n].records[i], p) && Leaks(run[n].records[i], p);
      var k :| 0 <= k < n && ops[k] == Put(run[n].records[i].held);
      assert LeakIn(ops[k], p);
    } else {
      assert n > 0;
      assert Step(run[n - 1], ops[n - 1], run[n]);
      LostIsNew(run[n - 1], ops[n - 1], run[n], p);
      if LostOrHeld(run[n - 1], p) {
        LostIsLeak(run, ops, n - 1, p);
      } else {
        assert LeakIn(ops[n - 1], p);
      }
    }
  }

  /** After adiak_clean the store has no block any more: whatever is still live is the caller's, or the
      zero-length array of an empty tuple in a type that was handed over, or was left behind by a call, and
      those are all still live. */
  lemma CleanLeavesOnlyLeaks(run: seq<Books>, ops: seq<Op>, p: nat)
    requires IsRun(run, ops) && ops != [] && ops[|ops| - 1].Clean?
    ensures run[|ops|].owner(p) in {Nobody, User, Lost}
    ensures run[|ops|].owner(p) == Lost <==> LeakOf(ops, |ops|, p)
  {
    var n := |ops|;
    RunKeeps(run, ops, n - 1);
    assert Step(run[n - 1], ops[n - 1], run[n]);
    CleansKeeps(run[n - 1], run[n]);
    LeakIsLostOrHeld(run, ops, n, p);
    if run[n].owner(p) == Lost {
      LostIsLeak(run, ops, n, p);
    }
  }
}
