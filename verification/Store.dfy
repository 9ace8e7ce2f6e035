/** The name/value store of src/adiak.c: a hash index and a list over the same records, the tools, and
    the heap blocks of both, all updated in place. */
module Store {
  import opened AdiakTypes
  import opened CHeap
  import opened Views
  import opened DeepCopy
  import opened Records
  import D = Dispatch
  import L = Ledger

  const RECORD_HASH_SIZE := 128

  /** strhash_djb2: the hash wraps around in a size_t. */
  function HashFrom(name: string, i: nat, hash: nat): nat
    requires i <= |name|
    decreases |name| - i
  {
    if i == |name| then hash
    else HashFrom(name, i + 1, (hash * 33 + name[i] as int) % 0x1_0000_0000_0000_0000)
  }

  function Bucket(name: string): (b: nat)
    ensures b < RECORD_HASH_SIZE
  {
    HashFrom(name, 0, 5381) % RECORD_HASH_SIZE
  }

  method StrHashDjb2(name: string) returns (hash: nat)
    ensures hash == HashFrom(name, 0, 5381)
    ensures hash == (5381 * Power33(|name|) + Weighted(name, 0)) % SIZE_T_RANGE
  {
    HashInClosedForm(name, 0, 5381);
    hash := 5381;
    var i := 0;
    while i < |name|
      invariant 0 <= i <= |name| && HashFrom(name, i, hash) == HashFrom(name, 0, 5381)
    {
      hash := (hash * 33 + name[i] as int) % 0x1_0000_0000_0000_0000;
      i := i + 1;
    }
  }

  function Power33(n: nat): nat {
    if n == 0 then 1 else 33 * Power33(n - 1)
  }

  /** The characters from i on, as a number in base 33. */
  function Weighted(name: string, i: nat): nat
    requires i <= |name|
    decreases |name| - i
  {
    if i == |name| then 0 else name[i] as int * Power33(|name| - 1 - i) + Weighted(name, i + 1)
  }

  const SIZE_T_RANGE := 0x1_0000_0000_0000_0000

  /** Wrapping around in between makes no difference. */
  lemma WrapInBetween(x: nat, p: nat, w: nat)
    ensures (x % SIZE_T_RANGE * p + w) % SIZE_T_RANGE == (x * p + w) % SIZE_T_RANGE
  {
    var q := x / SIZE_T_RANGE;
    assert x * p + w == (x % SIZE_T_RANGE * p + w) + SIZE_T_RANGE * (q * p);
  }

  lemma Reassemble(hash: nat, c: nat, p: nat, p': nat, w: nat)
    requires p' == 33 * p
    ensures ((hash * 33 + c) % SIZE_T_RANGE * p + w) % SIZE_T_RANGE == (hash * p' + (c * p + w)) % SIZE_T_RANGE
  {
    WrapInBetween(hash * 33 + c, p, w);
    assert (hash * 33 + c) * p == hash * (33 * p) + c * p;
  }

  /** The hash in closed form: the start value and the characters as a number in base 33, wrapped around
      once. */
  lemma {:induction false} HashInClosedForm(name: string, i: nat, hash: nat)
    requires i <= |name| && hash < SIZE_T_RANGE
    ensures HashFrom(name, i, hash) == (hash * Power33(|name| - i) + Weighted(name, i)) % SIZE_T_RANGE
    decreases |name| - i
  {
    if i < |name| {
      HashInClosedForm(name, i + 1, (hash * 33 + name[i] as int) % SIZE_T_RANGE);
      Reassemble(hash, name[i] as int, Power33(|name| - 1 - i), Power33(|name| - i), Weighted(name, i + 1));
    } else {
      assert hash * Power33(0) == hash;
    }
  }

  /** A node of the list and of one chain of the index. Its links and its name are set when it is
      made; self and nameAt are its block and that of its name. */
  class Record {
    const name: string
    const self: nat
    const nameAt: nat
    const listNext: Record?
    const hashNext: Record?
    var category: int
    var subcategory: Option<string>
    var subAt: Option<nat>
    var held: Handle
    var info: Info
    var infoAt: nat

    constructor (name: string, self: nat, nameAt: nat, listNext: Record?, hashNext: Record?,
                 category: int, subcategory: Option<string>, subAt: Option<nat>, held: Handle, info: Info, infoAt: nat)
      ensures this.name == name && this.self == self && this.nameAt == nameAt
      ensures this.listNext == listNext && this.hashNext == hashNext && this.info == info
      ensures AsEntry() == Entry(name, category, subcategory, held)
      ensures AsOwned() == L.Owned(self, nameAt, infoAt, subAt, held)
    {
      this.name, this.self, this.nameAt, this.listNext, this.hashNext := name, self, nameAt, listNext, hashNext;
      this.category, this.subcategory, this.subAt := category, subcategory, subAt;
      this.held, this.info, this.infoAt := held, info, infoAt;
    }

    /** Replaces everything but the node and the name. */
    method Refresh(category: int, subcategory: Option<string>, subAt: Option<nat>, held: Handle, info: Info,
        infoAt: nat)
      modifies this
      ensures this.info == info && (info.category == category && info.subcategory == subcategory ==> InfoAgrees())
      ensures AsEntry() == Entry(name, category, subcategory, held)
      ensures AsOwned() == L.Owned(self, nameAt, infoAt, subAt, held)
    {
      this.category, this.subcategory, this.subAt := category, subcategory, subAt;
      this.held, this.info, this.infoAt := held, info, infoAt;
    }

    /** The info repeats category and subcategory. */
    ghost predicate InfoAgrees()
      reads this
    {
      info.category == category && info.subcategory == subcategory
    }

    ghost function AsEntry(): Entry
      reads this
    {
      Entry(name, category, subcategory, held)
    }

    ghost function AsOwned(): L.Owned
      reads this
    {
      L.Owned(self, nameAt, infoAt, subAt, held)
    }
  }

  class Tool {
    const info: D.ToolInfo
    const next: Tool?
    var prev: Tool?
    /** How many tools registered before. */
    ghost const serial: nat

    constructor (info: D.ToolInfo, next: Tool?, ghost serial: nat)
      ensures this.info == info && this.next == next && this.prev == null && this.serial == serial
    {
      this.info, this.next, this.prev, this.serial := info, next, null, serial;
    }
  }

  // ---------------------------------------------------------------- chains

  function NodeAt(recs: seq<Record>, i: nat): Record? {
    if i < |recs| then recs[i] else null
  }

  /** The place of the first record from i on that is in bucket b, or the end. */
  function FirstIndex(recs: seq<Record>, i: nat, b: nat): (k: nat)
    requires i <= |recs|
    ensures i <= k <= |recs| && (k < |recs| ==> Bucket(recs[k].name) == b)
    ensures forall j :: i <= j < k ==> Bucket(recs[j].name) != b
    decreases |recs| - i
  {
    if i == |recs| || Bucket(recs[i].name) == b then i else FirstIndex(recs, i + 1, b)
  }

  function FirstFrom(recs: seq<Record>, i: nat, b: nat): Record?
    requires i <= |recs|
  {
    NodeAt(recs, FirstIndex(recs, i, b))
  }

  /** The list goes on from the record at i to the next one, and the chain to the next one of its bucket. */
  ghost predicate LinkedAt(recs: seq<Record>, i: nat)
    requires i < |recs|
  {
    recs[i].listNext == NodeAt(recs, i + 1) && recs[i].hashNext == FirstFrom(recs, i + 1, Bucket(recs[i].name))
  }

  /** No later record has the name of the one at i. */
  ghost predicate UniqueAt(recs: seq<Record>, i: nat)
    requires i < |recs|
  {
    NameIndex(recs, recs[i].name, i + 1) == |recs|
  }

  /** The list runs through all records, and each chain through those of its bucket, in the same order. */
  ghost predicate Chained(recs: seq<Record>) {
    forall i: nat :: i < |recs| ==> LinkedAt(recs, i) && UniqueAt(recs, i)
  }

  lemma {:induction false} FirstIndexShift(r: Record, recs: seq<Record>, i: nat, b: nat)
    requires i <= |recs|
    ensures FirstIndex([r] + recs, i + 1, b) == FirstIndex(recs, i, b) + 1
    decreases |recs| - i
  {
    if i < |recs| {
      FirstIndexShift(r, recs, i + 1, b);
    }
  }

  /** Putting a record in front leaves the chains from the old records on as they were. */
  lemma FirstFromShift(r: Record, recs: seq<Record>, i: nat, b: nat)
    requires i <= |recs|
    ensures FirstFrom([r] + recs, i + 1, b) == FirstFrom(recs, i, b)
  {
    FirstIndexShift(r, recs, i, b);
  }

  lemma {:induction false} NameIndexShift(r: Record, recs: seq<Record>, name: string, i: nat)
    requires i <= |recs|
    ensures NameIndex([r] + recs, name, i + 1) == NameIndex(recs, name, i) + 1
    decreases |recs| - i
  {
    if i < |recs| {
      NameIndexShift(r, recs, name, i + 1);
    }
  }

  lemma ChainedLonger(r: Record, recs: seq<Record>)
    requires Chained(recs) && r.listNext == NodeAt(recs, 0) && r.hashNext == FirstFrom(recs, 0, Bucket(r.name))
    requires NameIndex(recs, r.name, 0) == |recs|
    ensures Chained([r] + recs)
  {
    var more := [r] + recs;
    forall i: nat | i < |more| ensures LinkedAt(more, i) && UniqueAt(more, i) {
      FirstFromShift(r, recs, i, Bucket(more[i].name));
      NameIndexShift(r, recs, more[i].name, i);
      if i > 0 {
        assert LinkedAt(recs, i - 1) && UniqueAt(recs, i - 1);
      }
    }
  }

  lemma HeadOfLonger(r: Record, recs: seq<Record>, b: nat)
    ensures FirstFrom([r] + recs, 0, b) == if b == Bucket(r.name) then r else FirstFrom(recs, 0, b)
  {
    FirstFromShift(r, recs, 0, b);
  }

  /** The place of the record with this name from i on, or the end. */
  function NameIndex(recs: seq<Record>, name: string, i: nat): (k: nat)
    requires i <= |recs|
    ensures i <= k <= |recs| && (k < |recs| ==> recs[k].name == name) && forall j :: i <= j < k ==> recs[j].name != name
    decreases |recs| - i
  {
    if i == |recs| || recs[i].name == name then i else NameIndex(recs, name, i + 1)
  }

  /** What one finds by following the list, or one chain, for at most n steps. */
  ghost function FollowList(r: Record?, n: nat): seq<Record> {
    if r == null || n == 0 then [] else [r] + FollowList(r.listNext, n - 1)
  }

  ghost function FollowChain(r: Record?, n: nat): seq<Record> {
    if r == null || n == 0 then [] else [r] + FollowChain(r.hashNext, n - 1)
  }

  ghost function InBucket(recs: seq<Record>, i: nat, b: nat): seq<Record>
    requires i <= |recs|
    decreases |recs| - i
  {
    if i == |recs| then [] else (if Bucket(recs[i].name) == b then [recs[i]] else []) + InBucket(recs, i + 1, b)
  }

  lemma {:induction false} ListHasAll(recs: seq<Record>, i: nat, n: nat)
    requires Chained(recs) && i <= |recs| && n >= |recs| - i
    ensures FollowList(NodeAt(recs, i), n) == recs[i..]
    decreases |recs| - i
  {
    if i < |recs| {
      assert LinkedAt(recs, i);
      ListHasAll(recs, i + 1, n - 1);
    }
  }

  lemma {:induction false} BucketFrom(recs: seq<Record>, i: nat, b: nat)
    requires i <= |recs|
    ensures InBucket(recs, i, b) == InBucket(recs, FirstIndex(recs, i, b), b)
    decreases |recs| - i
  {
    if i < |recs| && Bucket(recs[i].name) != b {
      BucketFrom(recs, i + 1, b);
    }
  }

  lemma {:induction false} ChainHasBucket(recs: seq<Record>, i: nat, b: nat, n: nat)
    requires Chained(recs) && i <= |recs| && n >= |recs| - i
    ensures FollowChain(FirstFrom(recs, i, b), n) == InBucket(recs, i, b)
    decreases |recs| - i
  {
    var k := FirstIndex(recs, i, b);
    BucketFrom(recs, i, b);
    if k < |recs| {
      assert LinkedAt(recs, k);
      ChainHasBucket(recs, k + 1, b, n - 1);
    }
  }

  /** The record at i holds what es and os say, and its info repeats it. */
  ghost predicate CoupledAt(recs: seq<Record>, es: seq<Entry>, os: seq<L.Owned>, i: nat)
    requires i < |recs| == |es| == |os|
    reads recs[i]
  {
    recs[i].AsEntry() == es[i] && recs[i].AsOwned() == os[i] && recs[i].InfoAgrees()
  }

  ghost predicate Coupled(recs: seq<Record>, es: seq<Entry>, os: seq<L.Owned>)
    reads recs
  {
    |recs| == |es| == |os| && forall i: nat :: i < |recs| ==> CoupledAt(recs, es, os, i)
  }

  ghost function InfosOf(tools: seq<Tool>): seq<D.ToolInfo> {
    seq(|tools|, i requires 0 <= i < |tools| => tools[i].info)
  }

  ghost function BlocksOf(tools: seq<Tool>): seq<nat> {
    seq(|tools|, i requires 0 <= i < |tools| => tools[i].info.self)
  }

  lemma {:induction false} SameIndex(recs: seq<Record>, es: seq<Entry>, os: seq<L.Owned>, name: string, i: nat)
    requires Coupled(recs, es, os) && i <= |recs|
    ensures NameIndex(recs, name, i) == IndexOf(es, name, i)
    decreases |recs| - i
  {
    if i < |recs| {
      assert CoupledAt(recs, es, os, i);
      SameIndex(recs, es, os, name, i + 1);
    }
  }

  /** No name is in the store twice. */
  lemma StoredNamesUnique(recs: seq<Record>, es: seq<Entry>, os: seq<L.Owned>)
    requires Chained(recs) && Coupled(recs, es, os)
    ensures NamesUnique(es)
  {
    forall i, j | 0 <= i < j < |es| ensures es[i].name != es[j].name {
      assert CoupledAt(recs, es, os, i) && CoupledAt(recs, es, os, j) && UniqueAt(recs, i);
    }
  }

  lemma CoupledAfterChange(recs: seq<Record>, es: seq<Entry>, os: seq<L.Owned>, i: nat)
    requires i < |recs| == |es| == |os| && recs[i].InfoAgrees()
    requires forall j: nat :: j < |recs| && j != i ==> CoupledAt(recs, es, os, j)
    ensures Coupled(recs, es[i := recs[i].AsEntry()], os[i := recs[i].AsOwned()])
  {
    var es', os' := es[i := recs[i].AsEntry()], os[i := recs[i].AsOwned()];
    forall j: nat | j < |recs| ensures CoupledAt(recs, es', os', j) {
      assert j != i ==> CoupledAt(recs, es, os, j);
    }
  }

  lemma CoupledWithFirst(rec: Record, recs: seq<Record>, es: seq<Entry>, os: seq<L.Owned>)
    requires Coupled(recs, es, os) && rec.InfoAgrees()
    ensures Coupled([rec] + recs, [rec.AsEntry()] + es, [rec.AsOwned()] + os)
  {
    forall j: nat | j < |recs| + 1 ensures CoupledAt([rec] + recs, [rec.AsEntry()] + es, [rec.AsOwned()] + os, j) {
      assert j > 0 ==> CoupledAt(recs, es, os, j - 1);
    }
  }

  lemma NextInList(recs: seq<Record>, k: nat)
    requires Chained(recs) && k < |recs|
    ensures recs[k].listNext == NodeAt(recs, k + 1)
  {
    assert LinkedAt(recs, k);
  }

  /** The next record of the chain is no further than the record with the name. */
  lemma ChainSkips(recs: seq<Record>, name: string, k: nat)
    requires k <= |recs|
    ensures NameIndex(recs, name, FirstIndex(recs, k, Bucket(name))) == NameIndex(recs, name, k)
  {
    var j := FirstIndex(recs, k, Bucket(name));
    forall i | k <= i < j ensures recs[i].name != name {
      assert Bucket(recs[i].name) != Bucket(name);
    }
    NameIndexFrom(recs, name, k, j);
  }

  lemma ChainStep(recs: seq<Record>, name: string, j: nat)
    requires Chained(recs) && j < |recs| && Bucket(recs[j].name) == Bucket(name) && recs[j].name != name
    ensures recs[j].hashNext == NodeAt(recs, FirstIndex(recs, j + 1, Bucket(name)))
    ensures NameIndex(recs, name, FirstIndex(recs, j + 1, Bucket(name))) == NameIndex(recs, name, j)
  {
    ChainSkips(recs, name, j + 1);
    assert LinkedAt(recs, j);
  }

  lemma {:induction false} NameIndexFrom(recs: seq<Record>, name: string, i: nat, j: nat)
    requires i <= j <= |recs| && forall k :: i <= k < j ==> recs[k].name != name
    ensures NameIndex(recs, name, i) == NameIndex(recs, name, j)
    decreases j - i
  {
    if i < j {
      NameIndexFrom(recs, name, i + 1, j);
    }
  }

  function ToolAt(tools: seq<Tool>, k: nat): Tool? {
    if k < |tools| then tools[k] else null
  }

  /** The tool at k is linked to its neighbours, and any says whether some tool reports on all ranks. */
  ghost predicate ToolLinkedAt(tools: seq<Tool>, k: nat, any: bool)
    requires k < |tools|
    reads tools[k]
  {
    && tools[k].next == ToolAt(tools, k + 1) && tools[k].prev == (if k == 0 then null else tools[k - 1])
    && tools[k].serial == |tools| - 1 - k && (tools[k].info.onAllRanks ==> any)
  }

  // ---------------------------------------------------------------- releasing a record

  /** What an overwrite frees: the value, the type, the subcategory and the info. */
  method ReleaseHeld(o: L.Owned, h0: Heap) returns (h: Heap)
    requires h0.Valid() && L.Separate(o) && forall p: nat :: L.Owns(o, p) ==> p in h0.objs
    ensures h.Valid() && h.next == h0.next && h0.Keeps(h)
    ensures forall p: nat :: p in h.objs <==>
        p in h0.objs && (!L.Owns(o, p) || p == o.self || p == o.nameAt || L.Leaks(o, p))
  {
    h := ReleaseHandle(o.held, h0);
    if o.subAt.Some? {
      h := h.Free(o.subAt.value);
    }
    h := h.Free(o.infoAt);
    LeaksAreHeld(o);
  }

  lemma LeaksAreHeld(o: L.Owned)
    ensures forall p: nat :: L.Leaks(o, p) ==> L.InHandle(o.held, p)
  {
    forall p: nat | L.Leaks(o, p) ensures L.InHandle(o.held, p) {
      LostIsWithin(o.held.dtype, o.held.typeAt, p);
    }
  }

  /** free_adiak_value and free_adiak_type on one record. */
  method ReleaseHandle(x: Handle, h0: Heap) returns (h: Heap)
    requires h0.Valid() && L.Complete(x) && forall p: nat :: L.InHandle(x, p) ==> p in h0.objs
    ensures h.Valid() && h.next == h0.next && h0.Keeps(h)
    ensures forall p: nat :: p in h.objs <==> p in h0.objs && (!L.InHandle(x, p) || IsLost(x.dtype, x.typeAt, p))
  {
    h := FreeValue(x.dtype, x.value, x.cell, x.base, h0);
    h := FreeType(x.dtype, x.typeAt, h);
    forall p: nat ensures p in h.objs <==> p in h0.objs && (!L.InHandle(x, p) || IsLost(x.dtype, x.typeAt, p)) {
      LostIsWithin(x.dtype, x.typeAt, p);
    }
  }

  /** What adiak_clean frees of one record. */
  method ReleaseRecord(o: L.Owned, h0: Heap) returns (h: Heap)
    requires h0.Valid() && L.Separate(o) && forall p: nat :: L.Owns(o, p) ==> p in h0.objs
    ensures h.Valid() && h.next == h0.next && h0.Keeps(h)
    ensures forall p: nat :: p in h.objs <==> p in h0.objs && (!L.Owns(o, p) || L.Leaks(o, p))
  {
    h := ReleaseHandle(o.held, h0);
    h := ReleaseFrame(o, h);
    LeaksAreHeld(o);
  }

  method ReleaseFrame(o: L.Owned, h0: Heap) returns (h: Heap)
    requires h0.Valid() && L.Separate(o) && forall p: nat :: L.InFrame(o, p) ==> p in h0.objs
    ensures h.Valid() && h.next == h0.next && h0.Keeps(h)
    ensures forall p: nat :: p in h.objs <==> p in h0.objs && !L.InFrame(o, p)
  {
    h := h0.Free(o.nameAt);
    h := h.Free(o.infoAt);
    if o.subAt.Some? {
      h := h.Free(o.subAt.value);
    }
    h := h.Free(o.self);
  }

  // ---------------------------------------------------------------- filling a record

  /** strdup of a subcategory that may be NULL. */
  method CopySubcategory(subcategory: Option<string>, h0: Heap) returns (at: Option<nat>, h: Heap)
    requires h0.Valid()
    ensures h.Valid() && at.Some? == subcategory.Some? && h.next >= h0.next
    ensures at.Some? ==>
        h0.next <= at.value < h.next && at.value in h.objs && h.objs[at.value] == Text(subcategory.value)
    ensures forall p: nat :: p in h.objs <==> p in h0.objs || at == Some(p)
    ensures h0.Keeps(h)
  {
    at, h := None, h0;
    if subcategory.Some? {
      at := Some(h.next);
      h := h.Malloc(Text(subcategory.value));
    }
  }

  /** The heap side of overwriting the record o. */
  method Refill(o: L.Owned, subcategory: Option<string>, held: Handle, h0: Heap) returns (n: L.Owned, h: Heap)
    requires h0.Valid() && L.Separate(o) && forall p: nat :: L.Owns(o, p) ==> p in h0.objs
    requires L.Complete(held) && forall p: nat :: L.InHandle(held, p) ==> p in h0.objs && !L.Owns(o, p)
    ensures h.Valid() && n.self == o.self && n.nameAt == o.nameAt && n.held == held && L.Separate(n)
    ensures forall p: nat :: L.InFrame(n, p) && p != o.self && p != o.nameAt ==> p !in h0.objs
    ensures forall p: nat :: p in h.objs <==> L.Owns(n, p) || (p in h0.objs && (!L.Owns(o, p) || L.Leaks(o, p)))
    ensures n.subAt.Some? == subcategory.Some? && h0.Keeps(h)
  {
    h := ReleaseHeld(o, h0);
    ghost var h1 := h;
    var subAt;
    subAt, h := CopySubcategory(subcategory, h);
    n := L.Owned(o.self, o.nameAt, h.next, subAt, held);
    h := h.Malloc(Raw);
    RefilledHeap(o, n, h0, h1, h);
  }

  /** Overwrites everything in a record but its node and name. */
  method RefillRecord(rec: Record, category: int, subcategory: Option<string>, held: Handle, now: int, h0: Heap)
    returns (ghost n: L.Owned, h: Heap)
    requires h0.Valid() && L.Separate(rec.AsOwned()) && forall p: nat :: L.Owns(rec.AsOwned(), p) ==> p in h0.objs
    requires L.Complete(held) && forall p: nat :: L.InHandle(held, p) ==> p in h0.objs && !L.Owns(rec.AsOwned(), p)
    modifies rec
    ensures h.Valid() && n == rec.AsOwned() && n.held == held && L.Separate(n)
    ensures forall p: nat :: L.InFrame(n, p) && p != rec.self && p != rec.nameAt ==> p !in h0.objs
    ensures forall p: nat :: p in h.objs <==>
              L.Owns(n, p) || (p in h0.objs && (!L.Owns(old(rec.AsOwned()), p) || L.Leaks(old(rec.AsOwned()), p)))
    ensures rec.AsEntry() == Entry(rec.name, category, subcategory, held) &&
        rec.info == Info(category, subcategory, now)
    ensures rec.InfoAgrees() && h0.Keeps(h)
  {
    var filled;
    filled, h := Refill(L.Owned(rec.self, rec.nameAt, rec.infoAt, rec.subAt, rec.held), subcategory, held, h0);
    rec.Refresh(category, subcategory, filled.subAt, held, Info(category, subcategory, now), filled.infoAt);
    n := filled;
  }

  lemma RefilledHeap(o: L.Owned, n: L.Owned, h0: Heap, h1: Heap, h: Heap)
    requires L.Separate(o) && (forall p: nat :: L.Owns(o, p) ==> p in h0.objs)
    requires n.self == o.self && n.nameAt == o.nameAt
    requires forall p: nat :: L.InHandle(n.held, p) ==> p in h0.objs && !L.Owns(o, p)
    requires forall p: nat :: p in h1.objs <==>
        p in h0.objs && (!L.Owns(o, p) || p == o.self || p == o.nameAt || L.Leaks(o, p))
    requires forall p: nat :: p in h.objs <==> p in h1.objs || p == n.infoAt || n.subAt == Some(p)
    ensures forall p: nat :: p in h.objs <==> L.Owns(n, p) || (p in h0.objs && (!L.Owns(o, p) || L.Leaks(o, p)))
  {
    assert L.Owns(o, o.self) && L.Owns(o, o.nameAt);
  }

  /** The heap side of a new record. */
  method Make(name: string, subcategory: Option<string>, held: Handle, h0: Heap) returns (n: L.Owned, h: Heap)
    requires h0.Valid() && L.Complete(held) && forall p: nat :: L.InHandle(held, p) ==> p in h0.objs
    ensures h.Valid() && n.held == held && L.Separate(n) && n.subAt.Some? == subcategory.Some? && h0.Keeps(h)
    ensures forall p: nat :: L.InFrame(n, p) ==> p !in h0.objs
    ensures forall p: nat :: p in h.objs <==> p in h0.objs || L.InFrame(n, p)
  {
    var self := h0.next;
    h := h0.Malloc(Raw);
    var subAt;
    subAt, h := CopySubcategory(subcategory, h);
    var infoAt := h.next;
    h := h.Malloc(Raw);
    n := L.Owned(self, h.next, infoAt, subAt, held);
    h := h.Malloc(Text(name));
  }

  /** The live blocks are those with an owner. */
  ghost predicate Accounted(b: L.Books, h: Heap) {
    h.Valid() && (forall p: nat :: p in h.objs <==> !b.owner(p).Nobody?) && L.Balanced(b)
  }

  lemma ReadyToRefill(b: L.Books, h: Heap, i: nat, held: Handle)
    requires Accounted(b, h) && i < |b.records| && L.HandedOver(b, held)
    ensures L.Separate(b.records[i]) && forall p: nat :: L.Owns(b.records[i], p) ==> p in h.objs
    ensures L.Complete(held) && forall p: nat :: L.InHandle(held, p) ==> p in h.objs && !L.Owns(b.records[i], p)
  {
    assert L.RecordOk(b.owner, b.records[i]);
  }

  ghost function RefilledBooks(b: L.Books, i: nat, n: L.Owned): L.Books
    requires i < |b.records|
  {
    L.Books((p: nat) => L.OwnerAfter(b.owner(p), Some(b.records[i]), n, p), b.records[i := n], b.tools)
  }

  ghost function MadeBooks(b: L.Books, n: L.Owned): L.Books {
    L.Books((p: nat) => L.OwnerAfter(b.owner(p), None, n, p), [n] + b.records, b.tools)
  }

  lemma Refilled(b: L.Books, h0: Heap, i: nat, n: L.Owned, h: Heap, c: L.Books)
    requires Accounted(b, h0) && i < |b.records| && L.HandedOver(b, n.held) && h.Valid() && L.Separate(n)
    requires n.self == b.records[i].self && n.nameAt == b.records[i].nameAt
    requires forall p: nat :: L.InFrame(n, p) && p != n.self && p != n.nameAt ==> p !in h0.objs
    requires forall p: nat :: p in h.objs <==>
               L.Owns(n, p) || (p in h0.objs && (!L.Owns(b.records[i], p) || L.Leaks(b.records[i], p)))
    requires c == RefilledBooks(b, i, n)
    ensures L.Replaces(b, i, n, c) && Accounted(c, h)
  {
    assert L.RecordOk(b.owner, b.records[i]);
    assert L.Replaces(b, i, n, c);
    L.ReplacesKeeps(b, i, n, c);
    LeaksAreHeld(b.records[i]);
  }

  /** c is what a registration of e makes of the books of a store with the entries es. */
  ghost predicate Recorded(es: seq<Entry>, e: Entry, b: L.Books, c: L.Books) {
    var i := IndexOf(es, e.name, 0);
    if i < |es| then i < |c.records| && c.records[i].held == e.held && L.Replaces(b, i, c.records[i], c)
    else |c.records| > 0 && c.records[0].held == e.held && L.Adds(b, c.records[0], c)
  }

  lemma RecordedIsPut(es: seq<Entry>, e: Entry, b: L.Books, c: L.Books)
    requires Recorded(es, e, b, c)
    ensures L.Step(b, L.Put(e.held), c)
  {
    var i := IndexOf(es, e.name, 0);
    if i < |es| {
      assert L.Replaces(b, i, c.records[i], c);
    } else {
      assert L.Adds(b, c.records[0], c);
    }
  }

  /** An overwrite is a registration. */
  lemma {:induction false} OverwriteIsPut(b: L.Books, h0: Heap, i: nat, n: L.Owned, h: Heap, es: seq<Entry>, e: Entry)
    requires Accounted(b, h0) && i < |b.records| && L.HandedOver(b, n.held) && h.Valid() && L.Separate(n)
    requires n.self == b.records[i].self && n.nameAt == b.records[i].nameAt
    requires forall p: nat :: L.InFrame(n, p) && p != n.self && p != n.nameAt ==> p !in h0.objs
    requires forall p: nat :: p in h.objs <==>
               L.Owns(n, p) || (p in h0.objs && (!L.Owns(b.records[i], p) || L.Leaks(b.records[i], p)))
    requires i < |es| && i == IndexOf(es, e.name, 0) && n.held == e.held
    ensures Accounted(RefilledBooks(b, i, n), h)
    ensures es[i := e] == Upsert(es, e) && Recorded(es, e, b, RefilledBooks(b, i, n))
  {
    Refilled(b, h0, i, n, h, RefilledBooks(b, i, n));
  }

  lemma Made(b: L.Books, h0: Heap, n: L.Owned, h: Heap, c: L.Books)
    requires Accounted(b, h0) && L.HandedOver(b, n.held) && h.Valid() && L.Separate(n)
    requires forall p: nat :: L.InFrame(n, p) ==> p !in h0.objs
    requires forall p: nat :: p in h.objs <==> p in h0.objs || L.InFrame(n, p)
    requires c == MadeBooks(b, n)
    ensures L.Adds(b, n, c) && Accounted(c, h)
  {
    L.AddsKeeps(b, n, c);
  }

  /** The allocation and filling of a new record. */
  method NewRecord(name: string, listNext: Record?, hashNext: Record?, category: int, subcategory: Option<string>,
      held: Handle, now: int, h0: Heap)
    returns (rec: Record, h: Heap)
    requires h0.Valid() && L.Complete(held) && forall p: nat :: L.InHandle(held, p) ==> p in h0.objs
    ensures fresh(rec) && rec.name == name && rec.listNext == listNext && rec.hashNext == hashNext
    ensures rec.AsEntry() == Entry(name, category, subcategory, held) && rec.info == Info(category, subcategory, now)
    ensures h.Valid() && rec.AsOwned().held == held && L.Separate(rec.AsOwned()) && h0.Keeps(h)
    ensures forall p: nat :: L.InFrame(rec.AsOwned(), p) ==> p !in h0.objs
    ensures forall p: nat :: p in h.objs <==> p in h0.objs || L.InFrame(rec.AsOwned(), p)
  {
    var n;
    n, h := Make(name, subcategory, held, h0);
    rec := new Record(name, n.self, n.nameAt, listNext, hashNext,
                      category, subcategory, n.subAt, held, Info(category, subcategory, now), n.infoAt);
    assert rec.AsOwned() == n;
  }

  lemma {:induction false} AddIsPut(es: seq<Entry>, e: Entry, b: L.Books, n: L.Owned, c: L.Books)
    requires IndexOf(es, e.name, 0) == |es| && n.held == e.held && L.Adds(b, n, c)
    ensures [e] + es == Upsert(es, e) && Recorded(es, e, b, c)
  {
  }

  ghost function ToolBooks(b: L.Books, t: nat): L.Books {
    L.Books((p: nat) => if p == t then L.OfTool(t) else b.owner(p), b.records, [t] + b.tools)
  }

  lemma Tooled(b: L.Books, h0: Heap, t: nat, h: Heap)
    requires Accounted(b, h0) && t == h0.next && h == h0.Malloc(Raw)
    ensures L.Registers(b, t, ToolBooks(b, t)) && Accounted(ToolBooks(b, t), h)
  {
    L.RegistersKeeps(b, t, ToolBooks(b, t));
  }

  lemma BlocksOfLonger(tool: Tool, tools: seq<Tool>)
    ensures BlocksOf([tool] + tools) == [tool.info.self] + BlocksOf(tools)
    ensures InfosOf([tool] + tools) == [tool.info] + InfosOf(tools)
  {
  }

  /** The blocks that h has more than h0. */
  ghost function NewBlocks(h0: Heap, h: Heap): set<nat> {
    set p | p in h.objs && p !in h0.objs
  }

  ghost function AdoptedBooks(b: L.Books, h0: Heap, h: Heap): L.Books {
    L.Books((p: nat) => if p in NewBlocks(h0, h) then L.User else b.owner(p), b.records, b.tools)
  }

  lemma Adopted(b: L.Books, h0: Heap, h: Heap)
    requires Accounted(b, h0) && h.Valid() && h0.ExtendedBy(h)
    ensures L.UserActs(b, AdoptedBooks(b, h0, h)) && Accounted(AdoptedBooks(b, h0, h), h)
  {
    L.UserActsKeeps(b, AdoptedBooks(b, h0, h));
  }

  ghost function AbandonedBooks(b: L.Books, h0: Heap, h: Heap): L.Books {
    L.Books((p: nat) => if p in NewBlocks(h0, h) then L.Lost else b.owner(p), b.records, b.tools)
  }

  lemma Abandoned(b: L.Books, h0: Heap, h: Heap)
    requires Accounted(b, h0) && h.Valid() && h0.ExtendedBy(h)
    ensures L.Abandons(b, NewBlocks(h0, h), AbandonedBooks(b, h0, h)) && Accounted(AbandonedBooks(b, h0, h), h)
  {
    L.AbandonsKeeps(b, NewBlocks(h0, h), AbandonedBooks(b, h0, h));
  }

  // ---------------------------------------------------------------- cleaning up

  /** p is a block that freeing the first n records frees. */
  ghost predicate FreedByFirst(os: seq<L.Owned>, n: nat, p: nat)
    requires n <= |os|
  {
    exists j :: 0 <= j < n && L.Owns(os[j], p) && !L.Leaks(os[j], p)
  }

  /** h is h0 after the first n records have been freed. */
  ghost predicate LessRecords(os: seq<L.Owned>, n: nat, h0: Heap, h: Heap)
    requires n <= |os|
  {
    h.Valid() && h.next == h0.next && h0.Keeps(h) && forall p: nat :: p in h.objs <==>
      p in h0.objs && !FreedByFirst(os, n, p)
  }

  /** The blocks of a record are live until it is freed: they belong to no other record. */
  lemma StillLive(b: L.Books, n: nat, h0: Heap, h: Heap)
    requires Accounted(b, h0) && n < |b.records| && LessRecords(b.records, n, h0, h)
    ensures L.Separate(b.records[n]) && forall p: nat :: L.Owns(b.records[n], p) ==> p in h.objs
  {
    assert L.RecordOk(b.owner, b.records[n]);
    forall p: nat | L.Owns(b.records[n], p) ensures !FreedByFirst(b.records, n, p) {
      forall j: nat | j < n ensures !L.Owns(b.records[j], p) {
        OneOwner(b, n, j, p);
      }
    }
  }

  lemma OneOwner(b: L.Books, i: nat, j: nat, p: nat)
    requires L.Balanced(b) && i < |b.records| && j < |b.records| && i != j && L.Owns(b.records[i], p)
    ensures !L.Owns(b.records[j], p)
  {
    assert L.RecordOk(b.owner, b.records[i]) && L.RecordOk(b.owner, b.records[j]);
    assert b.records[i].self != b.records[j].self;
  }

  lemma OneLess(os: seq<L.Owned>, n: nat, h0: Heap, h1: Heap, h: Heap)
    requires n < |os| && LessRecords(os, n, h0, h1) && h.Valid() && h.next == h1.next && h1.Keeps(h)
    requires forall p: nat :: p in h.objs <==> p in h1.objs && (!L.Owns(os[n], p) || L.Leaks(os[n], p))
    ensures LessRecords(os, n + 1, h0, h)
  {
    forall p: nat
      ensures FreedByFirst(os, n + 1, p) <==> FreedByFirst(os, n, p) || (L.Owns(os[n], p) && !L.Leaks(os[n], p))
    {
    }
  }

  /** The release of one more record. */
  method ReleaseNext(o: L.Owned, ghost b: L.Books, ghost n: nat, ghost h0: Heap, h1: Heap) returns (h: Heap)
    requires Accounted(b, h0) && n < |b.records| && o == b.records[n] && LessRecords(b.records, n, h0, h1)
    ensures LessRecords(b.records, n + 1, h0, h)
  {
    StillLive(b, n, h0, h1);
    h := ReleaseRecord(o, h1);
    OneLess(b.records, n, h0, h1, h);
  }

  /** h is h0 after the first n tools have been freed. */
  ghost predicate LessTools(ts: seq<nat>, n: nat, h0: Heap, h: Heap)
    requires n <= |ts|
  {
    h.Valid() && h.next == h0.next && h0.Keeps(h) && forall p: nat :: p in h.objs <==> p in h0.objs && p !in ts[..n]
  }

  ghost function CleanBooks(b: L.Books): L.Books {
    L.Books((p: nat) =>
      if b.owner(p).OfTool? then L.Nobody
      else if b.owner(p).OfRecord? then (if L.LeaksInSome(b.records, p) then L.Lost else L.Nobody)
      else b.owner(p), [], [])
  }

  lemma Cleaned(b: L.Books, h0: Heap, h1: Heap, h: Heap)
    requires Accounted(b, h0) && LessRecords(b.records, |b.records|, h0, h1) && LessTools(b.tools, |b.tools|, h1, h)
    ensures L.Cleans(b, CleanBooks(b)) && Accounted(CleanBooks(b), h)
  {
    var c := CleanBooks(b);
    assert b.tools[..|b.tools|] == b.tools;
    forall p: nat ensures p in h.objs <==> !c.owner(p).Nobody? {
      if b.owner(p).OfRecord? {
        var i :| 0 <= i < |b.records| && b.records[i].self == b.owner(p).self;
        assert L.RecordOk(b.owner, b.records[i]);
        OnlyOwner(b, i, p);
      } else {
        NotOfRecord(b, p);
      }
    }
    L.CleansKeeps(b, c);
  }

  lemma OnlyOwner(b: L.Books, i: nat, p: nat)
    requires L.Balanced(b) && i < |b.records| && L.Owns(b.records[i], p)
    ensures L.LeaksInSome(b.records, p) <==> L.Leaks(b.records[i], p)
    ensures FreedByFirst(b.records, |b.records|, p) <==> !L.Leaks(b.records[i], p)
  {
    forall j: nat | j < |b.records| && j != i ensures !L.Owns(b.records[j], p) {
      OneOwner(b, i, j, p);
    }
  }

  lemma NotOfRecord(b: L.Books, p: nat)
    requires L.Balanced(b) && !b.owner(p).OfRecord?
    ensures !FreedByFirst(b.records, |b.records|, p)
  {
    forall j | 0 <= j < |b.records| ensures !L.Owns(b.records[j], p) {
      assert L.RecordOk(b.owner, b.records[j]);
    }
  }

  lemma ToolsAreLive(b: L.Books, h0: Heap, h: Heap)
    requires Accounted(b, h0) && LessRecords(b.records, |b.records|, h0, h)
    ensures forall k :: 0 <= k < |b.tools| ==> b.tools[k] in h.objs
  {
    forall k | 0 <= k < |b.tools| ensures b.tools[k] in h.objs {
      assert b.owner(b.tools[k]).OfTool?;
      NotOfRecord(b, b.tools[k]);
    }
  }

  /** What adiak_raw_namevalue tells the tools. */
  function EventOf(name: string, category: int, subcategory: Option<string>, held: Handle, now: int): D.Event {
    D.Event(name, category, subcategory, held.value, held.dtype,
            if category == CONTROL then None else Some(Info(category, subcategory, now)))
  }

  function CleanEvent(): D.Event {
    D.Event("clean", CONTROL, None, VInt(0), BASE_INT, None)
  }

  // ---------------------------------------------------------------- the store

  class Adiak {
    var heap: Heap
    var sharedRecordList: Record?
    const recordHash: array<Record?>
    var toolListSet: bool
    var toolList: Tool?
    var reportOnAllRanks: bool
    var reportableRank: bool
    /** The callbacks made so far. */
    var log: seq<D.Call>
    /** The records, newest first, with what they hold, and who owns which block. */
    ghost var recs: seq<Record>
    ghost var entries: seq<Entry>
    ghost var books: L.Books
    ghost var tools: seq<Tool>

    /** List and index hold the same records, in the same order. */
    ghost predicate Linked(rs: seq<Record>)
      reads this`sharedRecordList, recordHash
    {
      && Chained(rs) && sharedRecordList == NodeAt(rs, 0)
      && recordHash.Length == RECORD_HASH_SIZE
      && forall b :: 0 <= b < RECORD_HASH_SIZE ==> recordHash[b] == FirstFrom(rs, 0, b)
    }

    /** The tools are linked both ways. */
    ghost predicate ToolsLinked()
      reads this`tools, this`toolList, this`toolListSet, this`reportOnAllRanks, tools
    {
      && toolList == ToolAt(tools, 0) && (!toolListSet ==> tools == [])
      && (forall k: nat :: k < |tools| ==> ToolLinkedAt(tools, k, reportOnAllRanks))
    }

    ghost predicate Valid()
      reads this, recordHash, recs, tools
    {
      && Linked(recs) && ToolsLinked() && BlocksOf(tools) == books.tools
      && Coupled(recs, entries, books.records) && Accounted(books, heap)
    }

    /** find_record_by_name */
    method FindRecordByName(name: string) returns (rec: Record?)
      requires Linked(recs)
      ensures rec == NodeAt(recs, NameIndex(recs, name, 0))
    {
      var hashval := StrHashDjb2(name);
      hashval := hashval % RECORD_HASH_SIZE;
      rec := recordHash[hashval];
      ghost var j := FirstIndex(recs, 0, Bucket(name));
      ChainSkips(recs, name, 0);
      while rec != null && rec.name != name
        invariant j <= |recs| && rec == NodeAt(recs, j) && (j < |recs| ==> Bucket(recs[j].name) == Bucket(name))
        invariant NameIndex(recs, name, j) == NameIndex(recs, name, 0)
        decreases |recs| - j
      {
        ChainStep(recs, name, j);
        j := FirstIndex(recs, j + 1, Bucket(name));
        rec := rec.hashNext;
      }
    }

    /** Puts a record in front of the list and of the chain of its bucket. */
    method Link(rec: Record, hashval: nat, ghost rest: seq<Record>)
      requires Linked(rest) && hashval == Bucket(rec.name) && NameIndex(rest, rec.name, 0) == |rest|
      requires rec.listNext == sharedRecordList && rec.hashNext == recordHash[hashval]
      modifies this`sharedRecordList, recordHash
      ensures Linked([rec] + rest)
    {
      ChainedLonger(rec, rest);
      forall b: nat ensures FirstFrom([rec] + rest, 0, b) == if b == hashval then rec else FirstFrom(rest, 0, b) {
        HeadOfLonger(rec, rest, b);
      }
      sharedRecordList := rec;
      recordHash[hashval] := rec;
    }

    /** The case of record_nameval in which the name is known. */
    method OverwriteRecord(rec: Record, category: int, subcategory: Option<string>, held: Handle, now: int)
      requires Linked(recs) && Coupled(recs, entries, books.records) &&
          rec == NodeAt(recs, NameIndex(recs, rec.name, 0))
      requires Accounted(books, heap) && L.HandedOver(books, held)
      modifies this`heap, this`books, this`entries, rec
      ensures Linked(recs) && Coupled(recs, entries, books.records) && Accounted(books, heap)
      ensures entries == Upsert(old(entries), Entry(rec.name, category, subcategory, held)) && old(heap).Keeps(heap)
      ensures Recorded(old(entries), Entry(rec.name, category, subcategory, held), old(books), books)
      ensures rec.AsEntry() == Entry(rec.name, category, subcategory, held)
      ensures rec.info == Info(category, subcategory, now)
    {
      ghost var i := NameIndex(recs, rec.name, 0);
      SameIndex(recs, entries, books.records, rec.name, 0);
      assert UniqueAt(recs, i);
      OverwriteAt(i, rec, category, subcategory, held, now);
    }

    method OverwriteAt(ghost i: nat, rec: Record, category: int, subcategory: Option<string>, held: Handle, now: int)
      requires Coupled(recs, entries, books.records) && i < |recs| && rec == recs[i] &&
          i == IndexOf(entries, rec.name, 0)
      requires forall j :: 0 <= j < |recs| && j != i ==> recs[j] != rec
      requires Accounted(books, heap) && L.HandedOver(books, held)
      modifies this`heap, this`books, this`entries, rec
      ensures Coupled(recs, entries, books.records) && Accounted(books, heap)
      ensures entries == Upsert(old(entries), Entry(rec.name, category, subcategory, held)) && old(heap).Keeps(heap)
      ensures Recorded(old(entries), Entry(rec.name, category, subcategory, held), old(books), books)
      ensures rec.AsEntry() == Entry(rec.name, category, subcategory, held)
      ensures rec.info == Info(category, subcategory, now)
    {
      ghost var h0, b, es := heap, books, entries;
      ReadyToRefill(books, heap, i, held);
      assert CoupledAt(recs, entries, books.records, i);
      ghost var n;
      n, heap := RefillRecord(rec, category, subcategory, held, now, heap);
      CoupledAfterChange(recs, es, b.records, i);
      OverwriteIsPut(b, h0, i, n, heap, es, rec.AsEntry());
      entries, books := es[i := rec.AsEntry()], RefilledBooks(b, i, n);
    }

    /** A new record, filled and linked. */
    method NewLinked(name: string, category: int, subcategory: Option<string>, held: Handle, now: int)
      returns (rec: Record, h: Heap)
      requires Linked(recs) && NameIndex(recs, name, 0) == |recs|
      requires heap.Valid() && L.Complete(held) && forall p: nat :: L.InHandle(held, p) ==> p in heap.objs
      modifies this`sharedRecordList, recordHash
      ensures Linked([rec] + recs) && fresh(rec) && rec.name == name
      ensures rec.AsEntry() == Entry(name, category, subcategory, held) && rec.info == Info(category, subcategory, now)
      ensures h.Valid() && rec.AsOwned().held == held && L.Separate(rec.AsOwned()) && heap.Keeps(h)
      ensures forall p: nat :: L.InFrame(rec.AsOwned(), p) ==> p !in heap.objs
      ensures forall p: nat :: p in h.objs <==> p in heap.objs || L.InFrame(rec.AsOwned(), p)
    {
      var hashval := StrHashDjb2(name);
      hashval := hashval % RECORD_HASH_SIZE;
      rec, h := NewRecord(name, sharedRecordList, recordHash[hashval], category, subcategory, held, now, heap);
      Link(rec, hashval, recs);
    }

    /** The case of record_nameval in which the name is new. */
    method InsertRecord(name: string, category: int, subcategory: Option<string>, held: Handle, now: int)
      returns (rec: Record)
      requires Linked(recs) && Coupled(recs, entries, books.records) && NameIndex(recs, name, 0) == |recs|
      requires Accounted(books, heap) && L.HandedOver(books, held)
      modifies this`heap, this`books, this`entries, this`recs, this`sharedRecordList, recordHash
      ensures Linked(recs) && Coupled(recs, entries, books.records) && Accounted(books, heap)
      ensures fresh(rec) && recs == [rec] + old(recs)
      ensures entries == Upsert(old(entries), Entry(name, category, subcategory, held)) && old(heap).Keeps(heap)
      ensures Recorded(old(entries), Entry(name, category, subcategory, held), old(books), books)
      ensures rec.AsEntry() == Entry(name, category, subcategory, held)
      ensures rec.info == Info(category, subcategory, now)
    {
      SameIndex(recs, entries, books.records, name, 0);
      var h;
      rec, h := NewLinked(name, category, subcategory, held, now);
      ghost var n, e := rec.AsOwned(), rec.AsEntry();
      CoupledWithFirst(rec, recs, entries, books.records);
      Made(books, heap, n, h, MadeBooks(books, n));
      AddIsPut(entries, e, books, n, MadeBooks(books, n));
      heap := h;
      recs, entries, books := [rec] + recs, [e] + entries, MadeBooks(books, n);
    }

    /** record_nameval */
    method RecordNameval(name: string, category: int, subcategory: Option<string>, held: Handle, now: int)
      returns (rec: Record)
      requires Linked(recs) && Coupled(recs, entries, books.records)
      requires Accounted(books, heap) && L.HandedOver(books, held)
      modifies this`heap, this`books, this`entries, this`recs, this`sharedRecordList, recordHash, recs
      ensures Linked(recs) && Coupled(recs, entries, books.records) && Accounted(books, heap)
      ensures rec in recs && rec.AsEntry() == Entry(name, category, subcategory, held)
      ensures forall k :: 0 <= k < |recs| ==> recs[k] in old(recs) || fresh(recs[k])
      ensures rec.info == Info(category, subcategory, now)
      ensures entries == Upsert(old(entries), Entry(name, category, subcategory, held)) && old(heap).Keeps(heap)
      ensures Recorded(old(entries), Entry(name, category, subcategory, held), old(books), books)
    {
      var found := FindRecordByName(name);
      if found == null {
        rec := InsertRecord(name, category, subcategory, held, now);
      } else {
        rec := found;
        OverwriteRecord(rec, category, subcategory, held, now);
      }
    }

    /** The loop of adiak_raw_namevalue over the tools. */
    method Notify(e: D.Event)
      requires toolListSet && ToolsLinked()
      modifies this`log
      ensures log == old(log) + D.Dispatched(InfosOf(tools), e, reportableRank, 0)
    {
      var tool := toolList;
      ghost var k, ts, done := 0, InfosOf(tools), [];
      ghost var all := D.Dispatched(ts, e, reportableRank, 0);
      while tool != null
        invariant k <= |tools| && tool == ToolAt(tools, k) && log == old(log) + done
        invariant done + D.Dispatched(ts, e, reportableRank, k) == all
        decreases |tools| - k
      {
        assert ToolLinkedAt(tools, k, reportOnAllRanks);
        ghost var calls := if D.Wants(tool.info, e, reportableRank) then [D.CallOf(tool.info, e)] else [];
        D.DispatchedStep(ts, e, reportableRank, k, done, all);
        NotifyTool(tool, e);
        done := done + calls;
        tool := tool.next;
        k := k + 1;
      }
    }

    method NotifyTool(tool: Tool, e: D.Event)
      modifies this`log
      ensures log == old(log) + if D.Wants(tool.info, e, reportableRank) then [D.CallOf(tool.info, e)] else []
    {
      if !tool.info.onAllRanks && !reportableRank {
        return;
      }
      if tool.info.category != CATEGORY_ALL && tool.info.category != e.category {
        return;
      }
      if tool.info.plain {
        log := log + [D.PlainCall(tool.info.self, e.name, e.category, e.subcategory, e.value, e.dtype)];
      } else if tool.info.withInfo {
        log := log + [D.InfoCall(tool.info.self, e.name, e.value, e.dtype, e.info)];
      }
    }

    /** adiak_raw_namevalue. A control event is not recorded, so that its value stays the caller's. */
    method RawNamevalue(name: string, category: int, subcategory: Option<string>, held: Handle, now: int)
      requires Valid() && toolListSet && (category != CONTROL ==> L.HandedOver(books, held))
      modifies this`heap, this`books, this`entries, this`recs, this`sharedRecordList, this`log, recordHash, recs
      ensures Valid()
      ensures log ==
          old(log) + D.Dispatched(InfosOf(tools), EventOf(name, category, subcategory, held, now), reportableRank, 0)
      ensures category == CONTROL ==> entries == old(entries) && books == old(books) && heap == old(heap)
      ensures category != CONTROL ==> entries == Upsert(old(entries), Entry(name, category, subcategory, held))
      ensures category != CONTROL ==>
          Recorded(old(entries), Entry(name, category, subcategory, held), old(books), books)
      ensures (forall k :: 0 <= k < |recs| ==> recs[k] in old(recs) || fresh(recs[k])) && old(heap).Keeps(heap)
    {
      var info := None;
      if category != CONTROL {
        var rec := RecordNameval(name, category, subcategory, held, now);
        info := Some(rec.info);
      }
      Notify(D.Event(name, category, subcategory, held.value, held.dtype, info));
    }

    /** adiak_get_nameval */
    method GetNameval(name: string) returns (e: Option<Entry>)
      requires Valid()
      ensures e == Lookup(entries, name)
    {
      var rec := FindRecordByName(name);
      SameIndex(recs, entries, books.records, name, 0);
      if rec == null {
        return None;
      }
      assert CoupledAt(recs, entries, books.records, NameIndex(recs, name, 0));
      e := Some(Entry(rec.name, rec.category, rec.subcategory, rec.held));
    }

    /** adiak_list_namevals, with the callbacks collected in a list. */
    method ListNamevals(category: int) returns (calls: seq<Entry>)
      requires Linked(recs) && Coupled(recs, entries, books.records)
      ensures calls == Listing(entries, category, 0)
    {
      calls := [];
      var i := sharedRecordList;
      ghost var k, all := 0, Listing(entries, category, 0);
      while i != null
        invariant k <= |recs| && i == NodeAt(recs, k) && calls + Listing(entries, category, k) == all
        decreases |recs| - k
      {
        NextInList(recs, k);
        assert CoupledAt(recs, entries, books.records, k);
        ListingStep(entries, category, k, calls, all);
        if category == CATEGORY_ALL || i.category == category {
          calls := calls + [Entry(i.name, i.category, i.subcategory, i.held)];
        }
        i := i.listNext;
        k := k + 1;
      }
    }

    /** A process that has not used the library yet; what is on the heap is the caller's. */
    constructor (reportableRank: bool, heap: Heap)
      requires heap.Valid()
      ensures Valid() && entries == [] && recs == [] && tools == [] && log == [] && toolListSet && this.heap == heap
      ensures this.reportableRank == reportableRank && !reportOnAllRanks && fresh(recordHash)
      ensures L.IsStart(books) && forall p: nat :: books.owner(p) == if p in heap.objs then L.User else L.Nobody
    {
      this.heap := heap;
      sharedRecordList := null;
      recordHash := new Record?[RECORD_HASH_SIZE](_ => null);
      toolListSet, toolList := true, null;
      reportOnAllRanks, this.reportableRank := false, reportableRank;
      log := [];
      recs, entries, tools := [], [], [];
      books := L.Books((p: nat) => if p in heap.objs then L.User else L.Nobody, [], []);
    }

    /** Puts a tool in front of the list. */
    method PutInFront(newtool: Tool)
      requires ToolsLinked() && toolListSet
      requires newtool.next == toolList && newtool.prev == null && newtool.serial == |tools|
      modifies this`tools, this`toolList, this`reportOnAllRanks, tools
      ensures ToolsLinked() && tools == [newtool] + old(tools)
      ensures reportOnAllRanks == (old(reportOnAllRanks) || newtool.info.onAllRanks)
    {
      ghost var any := reportOnAllRanks;
      assert forall k: nat :: k < |tools| ==> ToolLinkedAt(tools, k, any);
      assert |tools| > 0 ==> ToolLinkedAt(tools, 0, any);
      if toolList != null {
        toolList.prev := newtool;
      }
      if newtool.info.onAllRanks && !reportOnAllRanks {
        reportOnAllRanks := true;
      }
      ghost var rest, more := tools, [newtool] + tools;
      toolList := newtool;
      tools := more;
      forall k: nat | k < |more| ensures ToolLinkedAt(more, k, reportOnAllRanks) {
        if k > 0 {
          assert old(ToolLinkedAt(tools, k - 1, any));
          assert k > 1 ==> rest[k - 1] != rest[0];
        }
      }
    }

    /** adiak_register; no update is possible once tool_list is NULL. */
    method Register(category: int, plain: bool, withInfo: bool, onAllRanks: bool)
      requires Valid() && toolListSet
      modifies this`heap, this`books, this`tools, this`toolList, this`reportOnAllRanks, tools
      ensures Valid() && entries == old(entries) && log == old(log)
      ensures InfosOf(tools) ==
          [D.ToolInfo(old(heap.next), category, onAllRanks, plain, withInfo)] + old(InfosOf(tools))
      ensures L.Registers(old(books), old(heap.next), books) && old(heap).Keeps(heap)
      ensures reportOnAllRanks == (old(reportOnAllRanks) || onAllRanks)
      ensures forall k :: 0 <= k < |tools| ==> tools[k] in old(tools) || fresh(tools[k])
    {
      var t := heap.next;
      var newtool := new Tool(D.ToolInfo(t, category, onAllRanks, plain, withInfo), toolList, |tools|);
      Tooled(books, heap, t, heap.Malloc(Raw));
      BlocksOfLonger(newtool, tools);
      heap, books := heap.Malloc(Raw), ToolBooks(books, t);
      PutInFront(newtool);
    }

    /** The loop of adiak_clean over the records. */
    method FreeRecords()
      requires Chained(recs) && sharedRecordList == NodeAt(recs, 0)
      requires Coupled(recs, entries, books.records) && Accounted(books, heap)
      modifies this`heap
      ensures LessRecords(books.records, |books.records|, old(heap), heap)
    {
      var i := sharedRecordList;
      ghost var k, h0 := 0, heap;
      while i != null
        invariant k <= |recs| && i == NodeAt(recs, k) && LessRecords(books.records, k, h0, heap)
        decreases |recs| - k
      {
        NextInList(recs, k);
        assert CoupledAt(recs, entries, books.records, k);
        heap := ReleaseNext(L.Owned(i.self, i.nameAt, i.infoAt, i.subAt, i.held), books, k, h0, heap);
        i := i.listNext;
        k := k + 1;
      }
    }

    /** The loop of adiak_clean over the tools. */
    method FreeTools()
      requires ToolsLinked() && toolListSet && BlocksOf(tools) == books.tools && heap.Valid()
      requires forall k :: 0 <= k < |books.tools| ==> books.tools[k] in heap.objs
      requires forall j, k :: 0 <= j < k < |books.tools| ==> books.tools[j] != books.tools[k]
      modifies this`heap
      ensures LessTools(books.tools, |books.tools|, old(heap), heap)
    {
      var tool := toolList;
      ghost var k, h0 := 0, heap;
      while tool != null
        invariant k <= |tools| && tool == ToolAt(tools, k) && LessTools(books.tools, k, h0, heap)
        decreases |tools| - k
      {
        assert ToolLinkedAt(tools, k, reportOnAllRanks);
        assert tool.info.self == books.tools[k];
        heap := heap.Free(tool.info.self);
        assert books.tools[..k + 1] == books.tools[..k] + [books.tools[k]];
        tool := tool.next;
        k := k + 1;
      }
    }

    /** Everything that the store owns is freed. */
    method FreeAll()
      requires Valid() && toolListSet
      modifies this`heap, this`books, this`entries, this`recs, this`tools, this`sharedRecordList, this`toolList,
          this`toolListSet,
               recordHash
      ensures Valid() && !toolListSet && entries == [] && tools == [] && L.Cleans(old(books), books) &&
          old(heap).Keeps(heap)
    {
      ghost var b, h0 := books, heap;
      FreeRecords();
      ghost var h1 := heap;
      ToolsAreLive(b, h0, h1);
      FreeTools();
      Cleaned(b, h0, h1, heap);
      forall i | 0 <= i < RECORD_HASH_SIZE {
        recordHash[i] := null;
      }
      sharedRecordList, toolList, toolListSet := null, null, false;
      recs, entries, tools, books := [], [], [], CleanBooks(b);
    }

    /** adiak_clean: the tools are told, and then everything is freed. */
    method Clean()
      requires Valid() && toolListSet
      modifies this, recordHash, recs
      ensures Valid() && !toolListSet && entries == [] && tools == [] && L.Cleans(old(books), books) &&
          old(heap).Keeps(heap)
      ensures log == old(log) + D.Dispatched(old(InfosOf(tools)), CleanEvent(), old(reportableRank), 0)
      ensures reportableRank == old(reportableRank) && reportOnAllRanks == old(reportOnAllRanks)
    {
      RawNamevalue("clean", CONTROL, None, Handle(BASE_INT, 0, VInt(0), 0, 0), 0);
      FreeAll();
    }

    /** The blocks of h that are new are the caller's, to be handed over. */
    method Adopt(h: Heap)
      requires Valid() && h.Valid() && heap.ExtendedBy(h)
      modifies this`heap, this`books
      ensures Valid() && heap == h && books == AdoptedBooks(old(books), old(heap), h)
    {
      Adopted(books, heap, h);
      heap, books := h, AdoptedBooks(books, heap, h);
    }

    /** The new blocks of h are left behind. */
    method Abandon(h: Heap)
      requires Valid() && h.Valid() && heap.ExtendedBy(h)
      modifies this`heap, this`books
      ensures Valid() && heap == h && books == AbandonedBooks(old(books), old(heap), h)
    {
      Abandoned(books, heap, h);
      heap, books := h, AbandonedBooks(books, heap, h);
    }

    /** Following the list finds every record once, and following a chain of the index finds every record
        of its bucket once. */
    lemma EachRecordOnce(b: nat)
      requires Valid() && b < RECORD_HASH_SIZE
      ensures FollowList(sharedRecordList, |recs|) == recs
      ensures FollowChain(recordHash[b], |recs|) == InBucket(recs, 0, b)
      ensures NamesUnique(entries)
    {
      ListHasAll(recs, 0, |recs|);
      ChainHasBucket(recs, 0, b, |recs|);
      StoredNamesUnique(recs, entries, books.records);
    }
  }
}
