/** The invariant of the host election, and that every step keeps it. */
module ElectionInvariant {
  import opened AdiakTypes
  import opened MpiElection

  /** The communicator that a rank is in after k splits. */
  function Colors(w: World, name: string, k: nat): CommId {
    if k == 0 then [] else Colors(w, name, k - 1) + [w.color(name, k - 1)]
  }

  lemma {:induction false} ColorsLength(w: World, name: string, k: nat)
    ensures |Colors(w, name, k)| == k
  {
    if k > 0 {
      ColorsLength(w, name, k - 1);
    }
  }

  /** The ranks whose names lead to id. */
  ghost function Class(w: World, id: CommId): set<nat> {
    set r | 0 <= r < |w.names| && Leads(w, w.names[r], id)
  }

  predicate Leads(w: World, name: string, id: CommId) {
    Colors(w, name, |id|) == id
  }

  ghost predicate SameNames(w: World, ms: set<nat>) {
    forall q, r :: q in ms && r in ms && q < |w.names| && r < |w.names| ==> w.names[q] == w.names[r]
  }

  /** The communicator a rank is in now. */
  function Current(p: Proc): CommId {
    if p.pc.AtSplit? then (if p.oldcomm.Some? then p.oldcomm.value else [])
    else (if p.newcomm.Some? then p.newcomm.value else [])
  }

  /** How far a rank is in a round; the releases are not collective, so that a rank may be past one
      while others are not. */
  function Stage(pc: Pc): nat {
    match pc
    case AtSplit => 0
    case AtFreeOld | AtBcast => 1
    case AtReduce => 2
    case AtFreeNew | Returned => 3
  }

  /** The fields of a rank agree with the number of splits it has been through. */
  ghost predicate ProcOk(w: World, p: Proc, r: nat)
    requires r < |w.names|
  {
    && p.globalRank == r
    && Current(p) == Colors(w, w.names[r], p.index)
    && match p.pc
       case AtSplit => p.oldcomm.Some? && (p.setOldcomm <==> p.index > 0)
       case AtFreeOld => p.newcomm.Some? && p.index >= 2 && p.setOldcomm &&
         p.oldcomm == Some(Colors(w, w.names[r], p.index - 1))
       case _ =>
         && p.newcomm.Some? && p.index >= 1 && (p.setOldcomm <==> p.index >= 2)
         && p.oldcomm == if p.setOldcomm then None else Some([])
  }

  /** The members of a communicator are in it together. */
  ghost predicate Together(s: State, r: nat)
    requires r < |s.procs|
  {
    && Current(s.procs[r]) in s.members
    && forall q :: q in s.members[Current(s.procs[r])] ==>
         && q < |s.procs| && s.procs[q].index == s.procs[r].index
         && Stage(s.procs[q].pc) == Stage(s.procs[r].pc)
  }

  /** After the broadcast every member has the name of the lowest rank. */
  ghost predicate HeardRoot(w: World, s: State, r: nat)
    requires r < |s.procs| == |w.names|
  {
    s.procs[r].pc.AtReduce? ==>
      exists m: nat :: m < |w.names| && IsLowest(Class(w, Current(s.procs[r])), m) && s.procs[r].oname == w.names[m]
  }

  ghost predicate IsLowest(ms: set<nat>, m: nat) {
    m in ms && forall r :: r in ms ==> m <= r
  }

  /** After the reduction all names in the communicator are equal. */
  ghost predicate Settled(w: World, s: State, r: nat)
    requires r < |s.procs| == |w.names|
  {
    s.procs[r].pc.AtFreeNew? || s.procs[r].pc.Returned? ==> SameNames(w, Class(w, Current(s.procs[r])))
  }

  /** The number of rounds that a rank has gone through without leaving the loop. */
  function RoundsPast(p: Proc): nat {
    if p.pc.AtSplit? then p.index else if p.index > 0 then p.index - 1 else 0
  }

  /** In each round that a rank went through without leaving the loop there were different names. */
  ghost predicate WasMixed(w: World, s: State, r: nat)
    requires r < |s.procs| == |w.names|
  {
    MixedUpTo(w, w.names[r], RoundsPast(s.procs[r]))
  }

  ghost predicate MixedUpTo(w: World, name: string, k: nat) {
    forall j: nat :: 1 <= j <= k ==> !UniformAfter(w, name, j)
  }

  /** After j splits all names in a rank's communicator are equal. */
  ghost predicate UniformAfter(w: World, name: string, j: nat) {
    SameNames(w, Class(w, Colors(w, name, j)))
  }

  ghost predicate ResultOk(w: World, s: State, r: nat)
    requires r < |s.procs| == |w.names|
  {
    s.procs[r].pc.Returned? ==>
      s.procs[r].result == if IsLowest(Class(w, Current(s.procs[r])), r) then 1 else 0
  }

  /** How many of a rank's communicators, the base one not counted, it has released. */
  function Released(p: Proc): nat {
    match p.pc
    case AtSplit => if p.index > 0 then p.index - 1 else 0
    case AtFreeOld => if p.index >= 2 then p.index - 2 else 0
    case AtBcast | AtReduce | AtFreeNew => if p.index >= 1 then p.index - 1 else 0
    case Returned => p.index
  }

  /** A rank has released each of those once, and nothing else. */
  ghost predicate FreedOk(w: World, s: State, r: nat)
    requires r < |s.procs| == |w.names|
  {
    FreedUpTo(w, s.freed, r, Released(s.procs[r]))
  }

  ghost predicate FreedUpTo(w: World, freed: multiset<(nat, CommId)>, r: nat, k: nat)
    requires r < |w.names|
  {
    forall id: CommId :: freed[(r, id)] == Due(w, w.names[r], id, k)
  }

  /** How often a rank should have released id after k releases. */
  function Due(w: World, name: string, id: CommId, k: nat): nat {
    if Leads(w, name, id) && 1 <= |id| <= k then 1 else 0
  }

  /** A communicator exists only once its members are past the split that makes it. */
  ghost predicate MembersOk(w: World, s: State) {
    && (forall id :: id in s.members ==> s.members[id] == Class(w, id))
    && (forall id :: id in s.members ==> AllPast(s, s.members[id], |id|))
  }

  ghost predicate AllPast(s: State, ms: set<nat>, k: nat) {
    forall r :: r in ms ==> r < |s.procs| && k <= s.procs[r].index
  }

  /** What holds of every rank in every reachable state. */
  ghost predicate RankOk(w: World, s: State, r: nat)
    requires r < |s.procs| == |w.names|
  {
    && ProcOk(w, s.procs[r], r) && Together(s, r)
    && HeardRoot(w, s, r) && Settled(w, s, r) && WasMixed(w, s, r) && ResultOk(w, s, r) && FreedOk(w, s, r)
  }

  ghost predicate Inv(w: World, s: State) {
    |s.procs| == |w.names| && MembersOk(w, s) && forall r :: 0 <= r < |w.names| ==> RankOk(w, s, r)
  }

  // ---------------------------------------------------------------- every step keeps the invariant

  lemma LeadsStep(w: World, name: string, id: CommId, k: int)
    ensures Leads(w, name, id + [k]) <==> Leads(w, name, id) && w.color(name, |id|) == k
  {
    ColorsLength(w, name, |id|);
    if Leads(w, name, id + [k]) {
      assert (id + [k])[..|id|] == Colors(w, name, |id|);
      assert id == (id + [k])[..|id|];
      assert (id + [k])[|id|] == k;
    }
  }

  /** A rank is in the class of its communicator, and its index is the length of its path. */
  lemma InOwnClass(w: World, s: State, r: nat)
    requires |s.procs| == |w.names| && r < |w.names| && ProcOk(w, s.procs[r], r)
    ensures |Current(s.procs[r])| == s.procs[r].index && r in Class(w, Current(s.procs[r]))
  {
    ColorsLength(w, w.names[r], s.procs[r].index);
  }

  /** Two ranks that have been split equally often, one in the communicator of the other. */
  lemma SameCurrent(w: World, s: State, r: nat, q: nat)
    requires Inv(w, s) && r < |w.names| && Together(s, r) && q in s.members[Current(s.procs[r])]
    ensures q < |w.names| && Current(s.procs[q]) in s.members && Current(s.procs[q]) == Current(s.procs[r]) &&
        r in s.members[Current(s.procs[q])]
  {
    assert q in Class(w, Current(s.procs[r]));
    assert RankOk(w, s, r) && RankOk(w, s, q);
    InOwnClass(w, s, r);
    InOwnClass(w, s, q);
  }

  /** A rank that is not in c shares its communicator with no rank that is at a collective on c. */
  lemma OutsideCollective(w: World, s: State, c: CommId, pc: Pc, r: nat)
    requires Inv(w, s) && AllAt(s, c, pc) && r < |w.names| && r !in s.members[c]
    ensures Apart(s, c, r)
  {
    assert RankOk(w, s, r);
    forall q | q in s.members[Current(s.procs[r])] ensures q !in s.members[c] {
      SameCurrent(w, s, r, q);
    }
  }

  lemma SplitIds(w: World, s: State, c: CommId, r: nat)
    requires Inv(w, s) && AllAt(s, c, AtSplit) && r in s.members[c]
    ensures r < |w.names| && s.procs[r].index == |c| && NewId(w, s, c, r) == Colors(w, w.names[r], |c| + 1)
    ensures Group(w, s, c, NewId(w, s, c, r)) == Class(w, NewId(w, s, c, r))
  {
    var id := NewId(w, s, c, r);
    assert RankOk(w, s, r);
    InOwnClass(w, s, r);
    forall q: nat ensures q in Group(w, s, c, id) <==> q in Class(w, id) {
      if q in s.members[c] {
        assert RankOk(w, s, q);
        InOwnClass(w, s, q);
      }
      if q < |w.names| {
        LeadsStep(w, w.names[q], c, w.color(w.names[r], |c|));
      }
    }
  }

  /** What SplitIds says, of all the members of c. */
  ghost predicate SplitReady(w: World, s: State, c: CommId)
    requires |s.procs| == |w.names| && AllAt(s, c, AtSplit)
  {
    forall r :: r in s.members[c] ==>
      && s.procs[r].index == |c| && NewId(w, s, c, r) == Colors(w, w.names[r], |c| + 1)
      && Group(w, s, c, NewId(w, s, c, r)) == Class(w, NewId(w, s, c, r))
  }

  lemma SplitIsReady(w: World, s: State, c: CommId)
    requires Inv(w, s) && AllAt(s, c, AtSplit)
    ensures SplitReady(w, s, c)
  {
    forall r | r in s.members[c]
      ensures s.procs[r].index == |c| && NewId(w, s, c, r) == Colors(w, w.names[r], |c| + 1)
      ensures Group(w, s, c, NewId(w, s, c, r)) == Class(w, NewId(w, s, c, r))
    {
      SplitIds(w, s, c, r);
    }
  }

  lemma SplitKeepsMembers(w: World, s: State, c: CommId)
    requires |s.procs| == |w.names| && AllAt(s, c, AtSplit) && MembersOk(w, s) && SplitReady(w, s, c)
    ensures MembersOk(w, AfterSplit(w, s, c))
  {
    var t := AfterSplit(w, s, c);
    forall id | id in t.members ensures t.members[id] == Class(w, id) {
      if r :| r in s.members[c] && NewId(w, s, c, r) == id {
        assert Group(w, s, c, id) == Class(w, id);
      }
    }
    forall id | id in t.members ensures AllPast(t, t.members[id], |id|) {
      if m :| m in s.members[c] && NewId(w, s, c, m) == id {
        assert t.members[id] == Group(w, s, c, id) && |id| == |c| + 1;
      } else {
        assert id in s.members && AllPast(s, s.members[id], |id|);
      }
    }
  }

  lemma SplitProcOk(w: World, p: Proc, r: nat, id: CommId)
    requires r < |w.names| && ProcOk(w, p, r) && p.pc == AtSplit && id == Colors(w, w.names[r], p.index + 1)
    ensures ProcOk(w, SplitProc(p, id), r) && Stage(SplitProc(p, id).pc) == 1 && Current(SplitProc(p, id)) == id
  {
    if p.index == 0 {
      assert p.oldcomm == Some([]);
    }
  }

  /** None of the members of r's communicator is in c. */
  ghost predicate Apart(s: State, c: CommId, r: nat)
    requires r < |s.procs| && c in s.members
  {
    var id := Current(s.procs[r]);
    id in s.members && forall q :: q in s.members[id] ==> q !in s.members[c]
  }

  lemma SplitTogether(w: World, s: State, c: CommId, r: nat)
    requires |s.procs| == |w.names| && AllAt(s, c, AtSplit) && SplitReady(w, s, c) && r in s.members[c]
    requires ProcOk(w, s.procs[r], r)
    ensures ProcOk(w, AfterSplit(w, s, c).procs[r], r) && Together(AfterSplit(w, s, c), r)
  {
    var id, t := NewId(w, s, c, r), AfterSplit(w, s, c);
    SplitProcOk(w, s.procs[r], r, id);
    assert t.procs[r] == SplitProc(s.procs[r], id) && t.members[id] == Group(w, s, c, id);
    forall q | q in t.members[id] ensures q < |t.procs| && t.procs[q].index == |c| + 1 && Stage(t.procs[q].pc) == 1 {
      assert t.procs[q] == SplitProc(s.procs[q], NewId(w, s, c, q));
    }
  }

  lemma SplitElsewhere(w: World, s: State, c: CommId, r: nat)
    requires |s.procs| == |w.names| && AllAt(s, c, AtSplit) && r < |w.names| && r !in s.members[c]
    requires ProcOk(w, s.procs[r], r) && Together(s, r) && Apart(s, c, r)
    requires MembersOk(w, s) && MembersOk(w, AfterSplit(w, s, c))
    ensures ProcOk(w, AfterSplit(w, s, c).procs[r], r) && Together(AfterSplit(w, s, c), r)
  {
    var id, t := Current(s.procs[r]), AfterSplit(w, s, c);
    assert t.procs[r] == s.procs[r] && t.members[id] == Class(w, id) == s.members[id];
    forall q | q in t.members[id] ensures q < |t.procs| && t.procs[q] == s.procs[q] {
      assert q in s.members[id];
    }
  }

  lemma SplitProcKeeps(p: Proc, id: CommId)
    requires p.pc == AtSplit && (p.setOldcomm <==> p.index > 0)
    ensures RoundsPast(SplitProc(p, id)) == RoundsPast(p) && Released(SplitProc(p, id)) == Released(p)
  {
  }

  lemma SplitKeepsRest(w: World, s: State, c: CommId, r: nat)
    requires |s.procs| == |w.names| && AllAt(s, c, AtSplit) && r < |w.names| && RankOk(w, s, r)
    ensures var t := AfterSplit(w, s, c);
            && HeardRoot(w, t, r) && Settled(w, t, r) && WasMixed(w, t, r)
            && ResultOk(w, t, r) && FreedOk(w, t, r)
  {
    var p, t := s.procs[r], AfterSplit(w, s, c);
    if r in s.members[c] {
      assert p.pc == AtSplit && (p.setOldcomm <==> p.index > 0);
      SplitProcKeeps(p, NewId(w, s, c, r));
      assert t.procs[r] == SplitProc(p, NewId(w, s, c, r));
    } else {
      assert t.procs[r] == p;
    }
  }

  lemma SplitKeeps(w: World, s: State, c: CommId)
    requires Inv(w, s) && AllAt(s, c, AtSplit)
    ensures Inv(w, AfterSplit(w, s, c))
  {
    SplitIsReady(w, s, c);
    SplitKeepsMembers(w, s, c);
    forall r | 0 <= r < |w.names| ensures RankOk(w, AfterSplit(w, s, c), r) {
      assert RankOk(w, s, r);
      if r in s.members[c] {
        SplitTogether(w, s, c, r);
      } else {
        OutsideCollective(w, s, c, AtSplit, r);
        SplitElsewhere(w, s, c, r);
      }
      SplitKeepsRest(w, s, c, r);
    }
  }

  /** Nobody's index and nobody's communicator changes. */
  ghost predicate SamePlaces(s: State, t: State) {
    && t.members == s.members && |t.procs| == |s.procs|
    && forall r :: 0 <= r < |s.procs| ==>
         t.procs[r].index == s.procs[r].index && Current(t.procs[r]) == Current(s.procs[r])
  }

  lemma SamePlacesKeepMembers(w: World, s: State, t: State)
    requires MembersOk(w, s) && SamePlaces(s, t)
    ensures MembersOk(w, t)
  {
    forall id | id in t.members ensures AllPast(t, t.members[id], |id|) {
      assert AllPast(s, s.members[id], |id|);
    }
  }

  /** A move that changes nobody's stage. */
  lemma LocalMove(s: State, t: State, r: nat)
    requires SamePlaces(s, t) && r < |s.procs| && Together(s, r)
    requires forall q :: 0 <= q < |s.procs| ==> Stage(t.procs[q].pc) == Stage(s.procs[q].pc)
    ensures Together(t, r)
  {
  }

  /** t is s after a collective on c that takes all its members to one stage. */
  ghost predicate Moved(s: State, c: CommId, stage: nat, t: State) {
    && SamePlaces(s, t) && c in s.members
    && (forall q :: q in s.members[c] ==> q < |s.procs| && Stage(t.procs[q].pc) == stage)
    && (forall q :: 0 <= q < |s.procs| && q !in s.members[c] ==> t.procs[q] == s.procs[q])
  }

  lemma CollectiveMove(s: State, c: CommId, stage: nat, t: State, r: nat)
    requires Moved(s, c, stage, t) && r < |s.procs| && Together(s, r)
    requires if r in s.members[c] then Current(s.procs[r]) == c else Apart(s, c, r)
    ensures Together(t, r)
  {
  }

  lemma CollectiveKeepsTogether(w: World, s: State, c: CommId, pc: Pc, stage: nat, t: State, r: nat)
    requires Inv(w, s) && AllAt(s, c, pc) && Moved(s, c, stage, t) && r < |w.names|
    ensures Together(t, r)
  {
    assert RankOk(w, s, r);
    if r !in s.members[c] {
      OutsideCollective(w, s, c, pc, r);
    }
    CollectiveMove(s, c, stage, t, r);
  }

  lemma RootIsLowest(w: World, s: State, c: CommId, m: nat)
    requires Inv(w, s) && c in s.members
    ensures IsRoot(s, s.members[c], m) <==> IsLowest(Class(w, c), m)
  {
    assert s.members[c] == Class(w, c);
    forall r | r in s.members[c] ensures r < |s.procs| && s.procs[r].globalRank == r {
      assert RankOk(w, s, r);
    }
  }

  lemma BcastMoves(w: World, s: State, c: CommId, root: nat)
    requires |s.procs| == |w.names| && AllAt(s, c, AtBcast) && root < |w.names|
    ensures Moved(s, c, 2, AfterBcast(w, s, c, root))
  {
  }

  lemma BcastKeeps(w: World, s: State, c: CommId, root: nat)
    requires Inv(w, s) && AllAt(s, c, AtBcast) && IsRoot(s, s.members[c], root) && root < |w.names|
    ensures Inv(w, AfterBcast(w, s, c, root))
  {
    var t := AfterBcast(w, s, c, root);
    RootIsLowest(w, s, c, root);
    BcastMoves(w, s, c, root);
    SamePlacesKeepMembers(w, s, t);
    forall r | 0 <= r < |w.names| ensures RankOk(w, t, r) {
      CollectiveKeepsTogether(w, s, c, AtBcast, 2, t, r);
      assert RankOk(w, s, r);
      BcastRankOk(w, s, c, root, r);
    }
  }

  lemma BcastRankOk(w: World, s: State, c: CommId, root: nat, r: nat)
    requires |s.procs| == |w.names| && AllAt(s, c, AtBcast) && IsLowest(Class(w, c), root) && root < |w.names|
    requires r < |w.names| && RankOk(w, s, r) && Together(AfterBcast(w, s, c, root), r)
    ensures RankOk(w, AfterBcast(w, s, c, root), r)
  {
    var p, t := s.procs[r], AfterBcast(w, s, c, root);
    if r in s.members[c] {
      assert t.procs[r] == p.(pc := AtReduce, oname := w.names[root]);
      assert RoundsPast(t.procs[r]) == RoundsPast(p) && Released(t.procs[r]) == Released(p);
    } else {
      assert t.procs[r] == p;
    }
  }

  lemma ReduceMoves(w: World, s: State, c: CommId)
    requires |s.procs| == |w.names| && AllAt(s, c, AtReduce)
    ensures Moved(s, c, if AllMatch(w, s, c) then 3 else 0, AfterReduce(w, s, c))
  {
  }

  lemma ReduceKeeps(w: World, s: State, c: CommId)
    requires Inv(w, s) && AllAt(s, c, AtReduce)
    ensures Inv(w, AfterReduce(w, s, c))
  {
    var t := AfterReduce(w, s, c);
    ReduceMoves(w, s, c);
    SamePlacesKeepMembers(w, s, t);
    ReduceTellsNames(w, s, c);
    forall r | 0 <= r < |w.names| ensures RankOk(w, t, r) {
      CollectiveKeepsTogether(w, s, c, AtReduce, if AllMatch(w, s, c) then 3 else 0, t, r);
      assert RankOk(w, s, r);
      ReduceRankOk(w, s, c, r);
    }
  }

  /** The reduction says whether all names in the communicator are equal. */
  lemma ReduceTellsNames(w: World, s: State, c: CommId)
    requires Inv(w, s) && AllAt(s, c, AtReduce)
    ensures AllMatch(w, s, c) <==> SameNames(w, Class(w, c))
  {
    var ms := Class(w, c);
    var m :| m in s.members[c];
    assert RankOk(w, s, m);
    var low: nat :| low < |w.names| && IsLowest(ms, low) && s.procs[m].oname == w.names[low];
    forall r | r in ms ensures r < |w.names| && s.procs[r].oname == w.names[low] {
      assert RankOk(w, s, r);
      var low': nat :| low' < |w.names| && IsLowest(ms, low') && s.procs[r].oname == w.names[low'];
      assert low' == low;
    }
    if AllMatch(w, s, c) {
      forall q, r | q in ms && r in ms && q < |w.names| && r < |w.names| ensures w.names[q] == w.names[r] {
        assert w.names[q] == s.procs[q].oname && w.names[r] == s.procs[r].oname;
      }
    }
  }

  /** A member that leaves the loop, and one that goes round again. */
  function Leaving(p: Proc): Proc {
    p.(pc := AtFreeNew)
  }

  function Again(p: Proc, c: CommId): Proc {
    p.(pc := AtSplit, setOldcomm := true, oldcomm := Some(c))
  }

  lemma LeavingOk(w: World, p: Proc, r: nat)
    requires r < |w.names| && p.pc == AtReduce && ProcOk(w, p, r)
    ensures ProcOk(w, Leaving(p), r) && RoundsPast(Leaving(p)) == RoundsPast(p) && Released(Leaving(p)) == Released(p)
  {
  }

  lemma AgainOk(w: World, p: Proc, c: CommId, r: nat)
    requires r < |w.names| && p.pc == AtReduce && ProcOk(w, p, r) && p.newcomm == Some(c)
    ensures ProcOk(w, Again(p, c), r) && c == Colors(w, w.names[r], p.index)
    ensures RoundsPast(Again(p, c)) == p.index == RoundsPast(p) + 1 && Released(Again(p, c)) == Released(p)
  {
  }

  lemma LeavingRankOk(w: World, s: State, t: State, r: nat)
    requires |s.procs| == |w.names| == |t.procs| && r < |w.names| && RankOk(w, s, r) && Together(t, r)
    requires t.freed == s.freed && s.procs[r].pc == AtReduce && t.procs[r] == Leaving(s.procs[r])
    requires SameNames(w, Class(w, Current(s.procs[r])))
    ensures RankOk(w, t, r)
  {
    LeavingOk(w, s.procs[r], r);
    assert Current(t.procs[r]) == Current(s.procs[r]);
  }

  lemma AgainRankOk(w: World, s: State, t: State, c: CommId, r: nat)
    requires |s.procs| == |w.names| == |t.procs| && r < |w.names| && RankOk(w, s, r) && Together(t, r)
    requires t.freed == s.freed && s.procs[r].pc == AtReduce && s.procs[r].newcomm == Some(c)
    requires t.procs[r] == Again(s.procs[r], c) && !SameNames(w, Class(w, c))
    ensures RankOk(w, t, r)
  {
    AgainOk(w, s.procs[r], c, r);
    MixedOnceMore(w, w.names[r], RoundsPast(s.procs[r]));
  }

  lemma MixedOnceMore(w: World, name: string, k: nat)
    requires MixedUpTo(w, name, k) && !UniformAfter(w, name, k + 1)
    ensures MixedUpTo(w, name, k + 1)
  {
  }

  lemma ReduceRankOk(w: World, s: State, c: CommId, r: nat)
    requires |s.procs| == |w.names| && AllAt(s, c, AtReduce) && (AllMatch(w, s, c) <==> SameNames(w, Class(w, c)))
    requires r < |w.names| && RankOk(w, s, r) && Together(AfterReduce(w, s, c), r)
    ensures RankOk(w, AfterReduce(w, s, c), r)
  {
    var p, t := s.procs[r], AfterReduce(w, s, c);
    if r !in s.members[c] {
      assert t.procs[r] == p;
      OthersOk(w, s, t, r);
    } else if AllMatch(w, s, c) {
      assert t.procs[r] == Leaving(p);
      LeavingRankOk(w, s, t, r);
    } else {
      assert t.procs[r] == Again(p, c);
      AgainRankOk(w, s, t, c, r);
    }
  }

  lemma OwnPath(w: World, name: string, id: CommId, k: nat)
    ensures Leads(w, name, id) && |id| == k <==> id == Colors(w, name, k)
  {
    ColorsLength(w, name, k);
  }

  /** A rank that does not move, when another one releases a communicator. */
  lemma OthersOk(w: World, s: State, t: State, q: nat)
    requires |s.procs| == |w.names| == |t.procs| && q < |w.names| && RankOk(w, s, q) && Together(t, q)
    requires t.procs[q] == s.procs[q] && forall id: CommId :: t.freed[(q, id)] == s.freed[(q, id)]
    ensures RankOk(w, t, q)
  {
  }

  /** One rank releases communicators of its own; the others neither move nor release anything. */
  ghost predicate OnlyMoves(s: State, t: State, r: nat) {
    && t.members == s.members && |t.procs| == |s.procs| && r < |s.procs|
    && Current(t.procs[r]) == Current(s.procs[r]) && t.procs[r].index == s.procs[r].index
    && Stage(t.procs[r].pc) == Stage(s.procs[r].pc)
    && (forall q :: 0 <= q < |s.procs| && q != r ==> t.procs[q] == s.procs[q])
    && (forall q: nat, id: CommId :: q != r ==> t.freed[(q, id)] == s.freed[(q, id)])
  }

  lemma OneMoveKeeps(w: World, s: State, t: State, r: nat)
    requires Inv(w, s) && OnlyMoves(s, t, r)
    requires Together(t, r) ==> RankOk(w, t, r)
    ensures Inv(w, t)
  {
    SamePlacesKeepMembers(w, s, t);
    forall q | 0 <= q < |w.names| ensures RankOk(w, t, q) {
      assert RankOk(w, s, q);
      LocalMove(s, t, q);
      if q != r {
        OthersOk(w, s, t, q);
      }
    }
  }

  lemma DueNext(w: World, name: string, id: CommId, k: nat)
    ensures Due(w, name, id, k + 1) == Due(w, name, id, k) + if id == Colors(w, name, k + 1) then 1 else 0
  {
    OwnPath(w, name, id, k + 1);
  }

  /** Releasing the communicator of one more round. */
  lemma ReleaseOne(w: World, freed: multiset<(nat, CommId)>, r: nat, k: nat)
    requires r < |w.names| && FreedUpTo(w, freed, r, k)
    ensures FreedUpTo(w, freed + multiset{(r, Colors(w, w.names[r], k + 1))}, r, k + 1)
  {
    var c := Colors(w, w.names[r], k + 1);
    var more := freed + multiset{(r, c)};
    forall id: CommId ensures more[(r, id)] == Due(w, w.names[r], id, k + 1) {
      DueNext(w, w.names[r], id, k);
      assert freed[(r, id)] == Due(w, w.names[r], id, k);
      assert more[(r, id)] == freed[(r, id)] + if id == c then 1 else 0;
    }
  }

  function PastFree(p: Proc): Proc {
    p.(pc := AtBcast, oldcomm := None)
  }

  function Done(p: Proc, elected: bool): Proc {
    p.(pc := Returned, result := if elected then 1 else 0)
  }

  lemma PastFreeOk(w: World, p: Proc, r: nat)
    requires r < |w.names| && p.pc == AtFreeOld && ProcOk(w, p, r)
    ensures ProcOk(w, PastFree(p), r) && RoundsPast(PastFree(p)) == RoundsPast(p)
    ensures Released(p) == p.index - 2 && Released(PastFree(p)) == p.index - 1
  {
  }

  lemma DoneOk(w: World, p: Proc, r: nat, elected: bool)
    requires r < |w.names| && p.pc == AtFreeNew && ProcOk(w, p, r)
    ensures ProcOk(w, Done(p, elected), r) && RoundsPast(Done(p, elected)) == RoundsPast(p)
    ensures Released(p) == p.index - 1 && Released(Done(p, elected)) == p.index
  {
  }

  lemma PastFreeRankOk(w: World, s: State, t: State, r: nat)
    requires |s.procs| == |w.names| == |t.procs| && r < |w.names| && RankOk(w, s, r) && Together(t, r)
    requires s.procs[r].pc == AtFreeOld && t.procs[r] == PastFree(s.procs[r])
    requires FreedUpTo(w, s.freed, r, s.procs[r].index - 2) ==> FreedUpTo(w, t.freed, r, s.procs[r].index - 1)
    ensures RankOk(w, t, r)
  {
    PastFreeOk(w, s.procs[r], r);
  }

  lemma FreeOldMoves(w: World, s: State, r: nat)
    requires Enabled(s, FreeOld(r)) && |s.procs| == |w.names| && ProcOk(w, s.procs[r], r)
    ensures OnlyMoves(s, AfterFreeOld(s, r), r) && AfterFreeOld(s, r).procs[r] == PastFree(s.procs[r])
    ensures s.procs[r].index >= 2
    ensures AfterFreeOld(s, r).freed == s.freed + multiset{(r, Colors(w, w.names[r], s.procs[r].index - 1))}
  {
  }

  lemma FreeOldKeeps(w: World, s: State, r: nat)
    requires Inv(w, s) && Enabled(s, FreeOld(r))
    ensures Inv(w, AfterFreeOld(s, r))
  {
    var t := AfterFreeOld(s, r);
    assert RankOk(w, s, r);
    FreeOldMoves(w, s, r);
    if Together(t, r) {
      var k := s.procs[r].index - 2;
      if FreedUpTo(w, s.freed, r, k) {
        ReleaseOne(w, s.freed, r, k);
      }
      PastFreeRankOk(w, s, t, r);
    }
    OneMoveKeeps(w, s, t, r);
  }

  /** What a rank frees after the loop: only its last communicator is left. */
  lemma ReturnFrees(w: World, s: State, r: nat, elected: bool)
    requires |s.procs| == |w.names| && Enabled(s, Return(r)) && ProcOk(w, s.procs[r], r) && FreedOk(w, s, r)
    ensures FreedUpTo(w, AfterReturn(s, r, elected).freed, r, s.procs[r].index)
  {
    var p := s.procs[r];
    ColorsLength(w, w.names[r], p.index);
    assert AfterReturn(s, r, elected).freed == s.freed + multiset{(r, Colors(w, w.names[r], p.index))};
    DoneOk(w, p, r, elected);
    ReleaseOne(w, s.freed, r, p.index - 1);
  }

  lemma DoneRankOk(w: World, s: State, t: State, r: nat, elected: bool)
    requires |s.procs| == |w.names| == |t.procs| && r < |w.names| && RankOk(w, s, r) && Together(t, r)
    requires s.procs[r].pc == AtFreeNew && t.procs[r] == Done(s.procs[r], elected)
    requires elected <==> IsLowest(Class(w, Current(s.procs[r])), r)
    requires FreedUpTo(w, t.freed, r, s.procs[r].index)
    ensures RankOk(w, t, r)
  {
    DoneOk(w, s.procs[r], r, elected);
    assert Current(t.procs[r]) == Current(s.procs[r]);
  }

  lemma ReturnMoves(w: World, s: State, r: nat, elected: bool)
    requires Enabled(s, Return(r)) && |s.procs| == |w.names| && ProcOk(w, s.procs[r], r)
    ensures OnlyMoves(s, AfterReturn(s, r, elected), r) &&
        AfterReturn(s, r, elected).procs[r] == Done(s.procs[r], elected)
    ensures s.procs[r].index >= 1
  {
  }

  lemma ReturnKeeps(w: World, s: State, r: nat)
    requires Inv(w, s) && Enabled(s, Return(r))
    ensures Inv(w, AfterReturn(s, r, IsRoot(s, s.members[s.procs[r].newcomm.value], r)))
  {
    var c := s.procs[r].newcomm.value;
    var elected := IsRoot(s, s.members[c], r);
    var t := AfterReturn(s, r, elected);
    assert RankOk(w, s, r);
    RootIsLowest(w, s, c, r);
    ReturnFrees(w, s, r, elected);
    ReturnMoves(w, s, r, elected);
    if Together(t, r) {
      DoneRankOk(w, s, t, r, elected);
    }
    OneMoveKeeps(w, s, t, r);
  }
}
