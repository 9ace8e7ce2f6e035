/** The election of src/adksys_mpi.c when MPI_Comm_free, which is a collective in section 6.4.3 of
    MPI 3.1, holds its callers back until all members of the communicator have called it. Then every
    step is a collective. Each run is a run of the protocol with local releases, so that what holds
    of those holds here, and nobody waits for a call that does not come. */
module ElectionSync {
  import opened AdiakTypes
  import opened MpiElection
  import opened ElectionInvariant
  import opened ElectionRuns

  // ---------------------------------------------------------------- the release as a collective

  datatype SyncAction = Round(a: Action) | Free(c: CommId)

  /** Every member of c is about to free it: after the next split, or after the loop. */
  ghost predicate Releasing(s: State, c: CommId) {
    FreeingOld(s, c) || AllAt(s, c, AtFreeNew)
  }

  ghost predicate FreeingOld(s: State, c: CommId) {
    c in s.members && s.members[c] != {} && forall r :: r in s.members[c] ==> FreesOld(s, r, c)
  }

  predicate FreesOld(s: State, r: nat, c: CommId) {
    r < |s.procs| && s.procs[r].pc.AtFreeOld? && s.procs[r].oldcomm == Some(c)
  }

  /** A rank past the release of c. */
  ghost function PastRelease(s: State, c: CommId, r: nat): Proc
    requires r < |s.procs| && c in s.members
  {
    if s.procs[r].pc.AtFreeOld? then PastFree(s.procs[r]) else Done(s.procs[r], IsRoot(s, s.members[c], r))
  }

  /** The members ms have released c. */
  ghost function ReleasedBy(s: State, c: CommId, ms: set<nat>): State
    requires c in s.members
  {
    s.(procs := seq(|s.procs|, r requires 0 <= r < |s.procs| => if r in ms then PastRelease(s, c, r) else s.procs[r]),
       freed := s.freed + multiset(set r | r in ms :: (r, c)))
  }

  ghost predicate SyncEnabled(s: State, a: SyncAction) {
    match a
    case Round(b) => CommOf(b).Some? && Enabled(s, b)
    case Free(c) => Releasing(s, c)
  }

  ghost predicate SyncStep(w: World, s: State, a: SyncAction, t: State) {
    && |w.names| == |s.procs| && SyncEnabled(s, a)
    && match a
       case Round(b) => Step(w, s, b, t)
       case Free(c) => t == ReleasedBy(s, c, s.members[c])
  }

  ghost predicate IsSyncRun(w: World, run: seq<State>, actions: seq<SyncAction>) {
    && |run| == |actions| + 1 && run[0] == Init(w)
    && forall i :: 0 <= i < |actions| ==> SyncStepAt(w, run, actions, i)
  }

  ghost predicate SyncStepAt(w: World, run: seq<State>, actions: seq<SyncAction>, i: nat)
    requires i < |actions| && i + 1 < |run|
  {
    SyncStep(w, run[i], actions[i], run[i + 1])
  }

  // ---------------------------------------------------------------- local releases do as much

  /** The release of one member. */
  function Release(s: State, r: nat): Action
    requires r < |s.procs|
  {
    if s.procs[r].pc.AtFreeOld? then FreeOld(r) else Return(r)
  }

  lemma OneMoreFreed(freed: multiset<(nat, CommId)>, c: CommId, ms: set<nat>, r: nat)
    requires r !in ms
    ensures freed + multiset(set q | q in ms + {r} :: (q, c)) ==
        freed + multiset(set q | q in ms :: (q, c)) + multiset{(r, c)}
  {
    assert (set q | q in ms + {r} :: (q, c)) == (set q | q in ms :: (q, c)) + {(r, c)};
  }

  lemma OneMoreReleased(s: State, c: CommId, ms: set<nat>, r: nat)
    requires c in s.members && r !in ms && r < |s.procs|
    ensures ReleasedBy(s, c, ms).procs[r] == s.procs[r]
    ensures ReleasedBy(s, c, ms + {r})
         == State(ReleasedBy(s, c, ms).procs[r := PastRelease(s, c, r)], s.members,
           ReleasedBy(s, c, ms).freed + multiset{(r, c)})
  {
    OneMoreFreed(s.freed, c, ms, r);
    assert ReleasedBy(s, c, ms + {r}).procs == ReleasedBy(s, c, ms).procs[r := PastRelease(s, c, r)];
  }

  lemma ReleaseByOne(w: World, s: State, c: CommId, ms: set<nat>, r: nat)
    requires Inv(w, s) && Releasing(s, c) && r in s.members[c] && r !in ms
    ensures r < |s.procs| && Step(w, ReleasedBy(s, c, ms), Release(s, r), ReleasedBy(s, c, ms + {r}))
  {
    assert RankOk(w, s, r);
    OneMoreReleased(s, c, ms, r);
    if s.procs[r].pc.AtFreeOld? {
      assert ReleasedBy(s, c, ms + {r}) == AfterFreeOld(ReleasedBy(s, c, ms), r);
    } else {
      SameRoot(s, c, ms, r);
      ReturnFreesNew(w, s, ReleasedBy(s, c, ms), r);
    }
  }

  /** Past the loop only the new communicator is left to be freed. */
  lemma ReturnFreesNew(w: World, s: State, s': State, r: nat)
    requires r < |s.procs| == |w.names| == |s'.procs| && ProcOk(w, s.procs[r], r)
    requires s'.procs[r] == s.procs[r] && Enabled(s', Return(r))
    ensures var p := s.procs[r];
            forall elected :: AfterReturn(s', r, elected)
              == State(s'.procs[r := Done(p, elected)], s'.members, s'.freed + multiset{(r, p.newcomm.value)})
  {
    ColorsLength(w, w.names[r], s.procs[r].index);
  }

  lemma SameRoot(s: State, c: CommId, ms: set<nat>, r: nat)
    requires c in s.members
    ensures IsRoot(ReleasedBy(s, c, ms), s.members[c], r) <==> IsRoot(s, s.members[c], r)
  {
    var t := ReleasedBy(s, c, ms);
    assert forall q :: 0 <= q < |s.procs| ==> t.procs[q].globalRank == s.procs[q].globalRank;
  }

  /** The members ms of c can release it. */
  ghost predicate CanRelease(w: World, s: State, c: CommId, ms: set<nat>) {
    Inv(w, s) && Releasing(s, c) && ms <= s.members[c]
  }

  lemma {:induction false} ReleasesAreLocal(w: World, run: seq<State>, actions: seq<Action>, c: CommId, ms: set<nat>)
    returns (run': seq<State>, actions': seq<Action>)
    requires IsRun(w, run, actions) && CanRelease(w, run[|actions|], c, ms)
    ensures IsRun(w, run', actions') && |actions'| == |actions| + |ms|
    ensures run'[|actions'|] == ReleasedBy(run[|actions|], c, ms)
  {
    var s := run[|actions|];
    if ms == {} {
      run', actions' := run, actions;
      NoneReleased(s, c);
    } else {
      var r :| r in ms;
      run', actions' := ReleasesAreLocal(w, run, actions, c, ms - {r});
      run', actions' := ReleaseNext(w, s, run', actions', c, ms - {r}, r);
      assert ms - {r} + {r} == ms;
    }
  }

  lemma NoneReleased(s: State, c: CommId)
    requires c in s.members
    ensures ReleasedBy(s, c, {}) == s
  {
    var none: set<nat> := {};
    assert (set q | q in none :: (q, c)) == {};
  }

  lemma ReleaseNext(w: World, s: State, run: seq<State>, actions: seq<Action>, c: CommId, ms: set<nat>, r: nat)
    returns (run': seq<State>, actions': seq<Action>)
    requires CanRelease(w, s, c, ms + {r}) && r !in ms
    requires IsRun(w, run, actions) && run[|actions|] == ReleasedBy(s, c, ms)
    ensures IsRun(w, run', actions') && |actions'| == |actions| + 1
    ensures run'[|actions'|] == ReleasedBy(s, c, ms + {r})
  {
    var t := ReleasedBy(s, c, ms + {r});
    ReleaseByOne(w, s, c, ms, r);
    OneMore(w, run, actions, Release(s, r), t);
    run', actions' := run + [t], actions + [Release(s, r)];
  }

  /** Whatever state the collective releases lead to, local ones lead to it as well, and in no fewer
      steps; so safety and the bounds on runs hold of synchronizing releases too. */
  lemma {:induction false} SyncRunIsRun(w: World, run: seq<State>, actions: seq<SyncAction>, i: nat)
    returns (run': seq<State>, actions': seq<Action>)
    requires IsSyncRun(w, run, actions) && i <= |actions|
    ensures IsRun(w, run', actions') && run'[|actions'|] == run[i] && i <= |actions'|
  {
    if i == 0 {
      run', actions' := [run[0]], [];
    } else {
      run', actions' := SyncRunIsRun(w, run, actions, i - 1);
      assert SyncStepAt(w, run, actions, i - 1);
      match actions[i - 1]
      case Round(a) =>
        OneMore(w, run', actions', a, run[i]);
        run', actions' := run' + [run[i]], actions' + [a];
      case Free(c) =>
        RunKeeps(w, run', actions', |actions'|);
        run', actions' := ReleasesAreLocal(w, run', actions', c, run[i - 1].members[c]);
    }
  }

  lemma ReachedKeeps(w: World, run: seq<State>, actions: seq<SyncAction>, i: nat)
    requires IsSyncRun(w, run, actions) && i <= |actions|
    ensures Inv(w, run[i])
  {
    var run', actions' := SyncRunIsRun(w, run, actions, i);
    RunKeeps(w, run', actions', |actions'|);
  }

  // ---------------------------------------------------------------- matching, releases included

  /** The next call of a rank, with its communicator. */
  function NextSync(p: Proc): (call: Option<(Pc, CommId)>) {
    if p.pc.Returned? then None
    else if p.pc.AtFreeOld? then (if p.oldcomm.Some? then Some((AtFreeOld, p.oldcomm.value)) else None)
    else Some((p.pc, Current(p)))
  }

  /** All members of the communicator that the next call of r is on are at that call too. */
  ghost predicate Matched(s: State, r: nat)
    requires r < |s.procs|
  {
    NextSync(s.procs[r]).Some? ==>
      var call := NextSync(s.procs[r]).value;
      call.1 in s.members && r in s.members[call.1] && AllCall(s, call)
  }

  ghost predicate AllCall(s: State, call: (Pc, CommId)) {
    call.1 in s.members && forall q :: q in s.members[call.1] ==> q < |s.procs| && NextSync(s.procs[q]) == Some(call)
  }

  /** A rank that is about to free a communicator is so together with all its members. */
  ghost predicate FreesTogether(s: State, r: nat)
    requires r < |s.procs|
  {
    s.procs[r].pc.AtFreeOld? || s.procs[r].pc.AtFreeNew? ==> Matched(s, r)
  }

  ghost predicate Lockstep(s: State) {
    forall r :: 0 <= r < |s.procs| ==> FreesTogether(s, r)
  }

  /** The communicator of a step. */
  function CommOfSync(a: SyncAction): CommId
    requires a.Round? ==> CommOf(a.a).Some?
  {
    if a.Free? then a.c else CommOf(a.a).value
  }

  /** In a state where releases match, all calls do. */
  lemma AllMatched(w: World, s: State, r: nat)
    requires Inv(w, s) && Lockstep(s) && r < |s.procs|
    ensures Matched(s, r)
  {
    assert RankOk(w, s, r) && FreesTogether(s, r);
    InOwnClass(w, s, r);
    var c := Current(s.procs[r]);
    if Collective(s.procs[r].pc) {
      forall q | q in s.members[c] ensures q < |s.procs| && NextSync(s.procs[q]) == NextSync(s.procs[r]) {
        SameCurrent(w, s, r, q);
        assert RankOk(w, s, q) && FreesTogether(s, q);
        if s.procs[q].pc.AtFreeOld? {
          OldClass(w, s, q, r);
          assert false;
        }
      }
    }
  }

  /** The communicator that a rank is about to free has all members of the new one. */
  lemma OldClass(w: World, s: State, q: nat, r: nat)
    requires Inv(w, s) && FreesTogetherAt(s, q) && r < |s.procs| && Current(s.procs[r]) == Current(s.procs[q])
    ensures s.procs[r].pc.AtFreeOld?
  {
    assert RankOk(w, s, q) && RankOk(w, s, r);
    InOwnClass(w, s, q);
    InOwnClass(w, s, r);
    var c := s.procs[q].oldcomm.value;
    SamePathBefore(w, w.names[q], w.names[r], s.procs[q].index - 1);
    ColorsLength(w, w.names[q], s.procs[q].index - 1);
    assert r in Class(w, c);
  }

  lemma SamePathBefore(w: World, a: string, b: string, k: nat)
    requires Colors(w, a, k + 1) == Colors(w, b, k + 1)
    ensures Colors(w, a, k) == Colors(w, b, k)
  {
    ColorsLength(w, a, k);
    ColorsLength(w, b, k);
    assert Colors(w, a, k + 1)[..k] == Colors(w, a, k);
  }

  ghost predicate FreesTogetherAt(s: State, q: nat) {
    q < |s.procs| && s.procs[q].pc.AtFreeOld? && Matched(s, q)
  }

  // ---------------------------------------------------------------- releases stay matched

  /** A step is a call of exactly the members of its communicator. */
  lemma StepIsCall(w: World, s: State, a: SyncAction, t: State)
    requires Inv(w, s) && SyncStep(w, s, a, t)
    ensures CommOfSync(a) in s.members && |t.procs| == |s.procs|
    ensures forall q :: 0 <= q < |s.procs| && q !in s.members[CommOfSync(a)] ==> t.procs[q] == s.procs[q]
    ensures forall q :: q in s.members[CommOfSync(a)] ==> q < |s.procs| && CallsOn(s.procs[q], CommOfSync(a))
  {
    forall q | q in s.members[CommOfSync(a)] ensures q < |s.procs| && CallsOn(s.procs[q], CommOfSync(a)) {
      MemberCalls(s, a, q);
    }
  }

  lemma MemberCalls(s: State, a: SyncAction, q: nat)
    requires SyncEnabled(s, a) && CommOfSync(a) in s.members && q in s.members[CommOfSync(a)]
    ensures q < |s.procs| && CallsOn(s.procs[q], CommOfSync(a))
  {
  }

  predicate CallsOn(p: Proc, c: CommId) {
    NextSync(p).Some? && NextSync(p).value.1 == c
  }

  /** A rank that takes no part in a step stays matched. */
  lemma OthersStayMatched(w: World, s: State, a: SyncAction, t: State, r: nat)
    requires Inv(w, s) && Inv(w, t) && SyncStep(w, s, a, t) && r < |s.procs| && Matched(s, r)
    requires CommOfSync(a) in s.members && r !in s.members[CommOfSync(a)]
    ensures |t.procs| == |s.procs| && t.procs[r] == s.procs[r] && Matched(t, r)
  {
    StepIsCall(w, s, a, t);
    if NextSync(s.procs[r]).Some? {
      var call := NextSync(s.procs[r]).value;
      MembersStay(w, s, a, t, call.1);
      forall q | q in t.members[call.1] ensures q < |t.procs| && NextSync(t.procs[q]) == Some(call) {
        assert NextSync(s.procs[q]) == Some(call);
      }
    }
  }

  lemma MembersStay(w: World, s: State, a: SyncAction, t: State, c: CommId)
    requires Inv(w, s) && Inv(w, t) && SyncStep(w, s, a, t) && c in s.members
    ensures c in t.members && t.members[c] == s.members[c]
  {
  }

  lemma SplitStaysMatched(w: World, s: State, c: CommId, r: nat)
    requires Inv(w, s) && AllAt(s, c, AtSplit) && r in s.members[c] && c in AfterSplit(w, s, c).members
    requires AfterSplit(w, s, c).members[c] == s.members[c]
    ensures r < |s.procs| && FreesTogether(AfterSplit(w, s, c), r)
  {
    var t := AfterSplit(w, s, c);
    assert RankOk(w, s, r);
    if t.procs[r].pc.AtFreeOld? {
      forall q | q in t.members[c] ensures q < |t.procs| && NextSync(t.procs[q]) == Some((AtFreeOld, c)) {
        FreesAfterSplit(w, s, c, r, q);
      }
    }
  }

  lemma FreesAfterSplit(w: World, s: State, c: CommId, r: nat, q: nat)
    requires Inv(w, s) && AllAt(s, c, AtSplit) && r in s.members[c] && q in s.members[c] && s.procs[r].setOldcomm
    ensures q < |s.procs| && NextSync(AfterSplit(w, s, c).procs[q]) == Some((AtFreeOld, c))
  {
    assert RankOk(w, s, q) && RankOk(w, s, r);
  }

  lemma ReduceStaysMatched(w: World, s: State, c: CommId, r: nat)
    requires Inv(w, s) && AllAt(s, c, AtReduce) && r in s.members[c]
    ensures r < |s.procs| && FreesTogether(AfterReduce(w, s, c), r)
  {
    var t := AfterReduce(w, s, c);
    if t.procs[r].pc.AtFreeNew? {
      forall q | q in t.members[c] ensures q < |t.procs| && NextSync(t.procs[q]) == Some((AtFreeNew, c)) {
        assert t.procs[q] == Leaving(s.procs[q]);
      }
    }
  }

  lemma StepKeepsLockstep(w: World, s: State, a: SyncAction, t: State)
    requires Inv(w, s) && Inv(w, t) && SyncStep(w, s, a, t) && Lockstep(s)
    ensures Lockstep(t)
  {
    StepIsCall(w, s, a, t);
    var c := CommOfSync(a);
    MembersStay(w, s, a, t, c);
    forall r | 0 <= r < |t.procs| ensures FreesTogether(t, r) {
      if r !in s.members[c] {
        AllMatched(w, s, r);
        OthersStayMatched(w, s, a, t, r);
      } else if a == Round(Split(c)) {
        SplitStaysMatched(w, s, c, r);
      } else if a == Round(Reduce(c)) {
        ReduceStaysMatched(w, s, c, r);
      }
    }
  }

  ghost predicate SyncInv(w: World, s: State) {
    Inv(w, s) && Lockstep(s)
  }

  lemma InitSyncInv(w: World)
    ensures SyncInv(w, Init(w))
  {
    InitInv(w);
  }

  lemma StepKeepsSyncInv(w: World, s: State, a: SyncAction, t: State)
    requires SyncInv(w, s) && SyncStep(w, s, a, t) && Inv(w, t)
    ensures SyncInv(w, t)
  {
    StepKeepsLockstep(w, s, a, t);
  }

  lemma ReachedKeepsSyncInv(w: World, run: seq<State>, actions: seq<SyncAction>, i: nat)
    requires IsSyncRun(w, run, actions) && i < |actions| && SyncInv(w, run[i])
    ensures SyncInv(w, run[i + 1])
  {
    ReachedKeeps(w, run, actions, i + 1);
    assert SyncStepAt(w, run, actions, i);
    StepKeepsSyncInv(w, run[i], actions[i], run[i + 1]);
  }

  lemma {:induction false} RunKeepsSyncInv(w: World, run: seq<State>, actions: seq<SyncAction>, i: nat)
    requires IsSyncRun(w, run, actions) && i <= |actions|
    ensures SyncInv(w, run[i])
  {
    if i == 0 {
      InitSyncInv(w);
    } else {
      RunKeepsSyncInv(w, run, actions, i - 1);
      ReachedKeepsSyncInv(w, run, actions, i - 1);
    }
  }

  // ---------------------------------------------------------------- the main results

  /** Whatever a rank calls next, every member of that communicator calls next too: split, broadcast,
      reduction or release. */
  lemma SyncCallsMatch(w: World, run: seq<State>, actions: seq<SyncAction>, i: nat, r: nat, q: nat)
    requires IsSyncRun(w, run, actions) && i <= |actions| && r < |run[i].procs| && NextSync(run[i].procs[r]).Some?
    ensures var c := NextSync(run[i].procs[r]).value.1;
            && c in run[i].members && r in run[i].members[c]
            && (q in run[i].members[c] ==> q < |run[i].procs| && NextSync(run[i].procs[q]) == NextSync(run[i].procs[r]))
  {
    RunKeepsSyncInv(w, run, actions, i);
    AllMatched(w, run[i], r);
  }

  /** What rank r calls in a step. */
  function SyncCall(s: State, a: SyncAction, r: nat): seq<(Pc, CommId)>
  {
    if r < |s.procs| && TakesPart(s, a, r) && NextSync(s.procs[r]).Some? then [NextSync(s.procs[r]).value] else []
  }

  predicate TakesPart(s: State, a: SyncAction, r: nat) {
    var c := if a.Free? then Some(a.c) else CommOf(a.a);
    c.Some? && c.value in s.members && r in s.members[c.value]
  }

  /** The calls that rank r has made, releases included, in order. */
  function SyncCalls(run: seq<State>, actions: seq<SyncAction>, i: nat, r: nat): seq<(Pc, CommId)>
    requires |run| == |actions| + 1 && i <= |actions|
  {
    if i == 0 then [] else SyncCalls(run, actions, i - 1, r) + SyncCall(run[i - 1], actions[i - 1], r)
  }

  /** Names that lead to one communicator have led to the same ones before. */
  lemma {:induction false} SameBefore(w: World, a: string, b: string, id: CommId, c: CommId)
    requires Leads(w, a, id) && Leads(w, b, id) && |c| <= |id|
    ensures Leads(w, a, c) <==> Leads(w, b, c)
    decreases |id|
  {
    if |c| < |id| {
      SamePathBefore(w, a, b, |id| - 1);
      ColorsLength(w, a, |id| - 1);
      SameBefore(w, a, b, Colors(w, a, |id| - 1), c);
    }
  }

  lemma IndexGrows(w: World, s: State, a: SyncAction, t: State, r: nat)
    requires SyncStep(w, s, a, t) && r < |s.procs|
    ensures r < |t.procs| && s.procs[r].index <= t.procs[r].index
  {
  }

  /** Where a rank was before a step, every rank was that is with it afterwards. */
  lemma WereMates(w: World, s: State, a: SyncAction, t: State, r: nat, q: nat, c: CommId)
    requires Inv(w, s) && Inv(w, t) && SyncStep(w, s, a, t) && Mates(t, r, q)
    requires c in s.members && |c| <= s.procs[r].index
    ensures r in s.members[c] <==> q in s.members[c]
  {
    IndexGrows(w, s, a, t, r);
    assert RankOk(w, t, r);
    InOwnClass(w, t, r);
    SameBefore(w, w.names[r], w.names[q], Current(t.procs[r]), c);
  }

  lemma MatesBefore(w: World, s: State, a: SyncAction, t: State, r: nat, q: nat)
    requires Inv(w, s) && Inv(w, t) && SyncStep(w, s, a, t) && Mates(t, r, q)
    ensures Mates(s, r, q)
  {
    assert RankOk(w, s, r);
    InOwnClass(w, s, r);
    WereMates(w, s, a, t, r, q, Current(s.procs[r]));
  }

  /** Mates take part together. */
  lemma PartTogether(w: World, s: State, a: SyncAction, t: State, r: nat, q: nat)
    requires Inv(w, s) && Inv(w, t) && SyncStep(w, s, a, t) && Mates(t, r, q) && Mates(s, r, q)
    ensures TakesPart(s, a, r) <==> TakesPart(s, a, q)
  {
    var c := CommOfSync(a);
    StepIsCall(w, s, a, t);
    assert AllPast(s, s.members[c], |c|);
    assert RankOk(w, s, r);
    SameCurrent(w, s, r, q);
    if TakesPart(s, a, r) || TakesPart(s, a, q) {
      WereMates(w, s, a, t, r, q, c);
    }
  }

  /** Those that take part in one step make one call. */
  lemma OneCall(w: World, s: State, a: SyncAction, t: State, r: nat, q: nat)
    requires SyncInv(w, s) && SyncStep(w, s, a, t) && TakesPart(s, a, r) && TakesPart(s, a, q)
    ensures SyncCall(s, a, r) == SyncCall(s, a, q)
  {
    StepIsCall(w, s, a, t);
    AllMatched(w, s, r);
  }

  lemma SyncSamePart(w: World, s: State, a: SyncAction, t: State, r: nat, q: nat)
    requires SyncInv(w, s) && Inv(w, t) && SyncStep(w, s, a, t) && Mates(t, r, q)
    ensures Mates(s, r, q) && SyncCall(s, a, r) == SyncCall(s, a, q)
  {
    MatesBefore(w, s, a, t, r, q);
    PartTogether(w, s, a, t, r, q);
    if TakesPart(s, a, r) {
      OneCall(w, s, a, t, r, q);
    }
  }

  lemma StepKeepsInv(w: World, run: seq<State>, actions: seq<SyncAction>, i: nat)
    requires IsSyncRun(w, run, actions) && i < |actions|
    ensures SyncInv(w, run[i]) && Inv(w, run[i + 1]) && SyncStep(w, run[i], actions[i], run[i + 1])
  {
    assert SyncStepAt(w, run, actions, i);
    RunKeepsSyncInv(w, run, actions, i);
    ReachedKeeps(w, run, actions, i + 1);
  }

  lemma SyncSameCall(w: World, run: seq<State>, actions: seq<SyncAction>, i: nat, r: nat, q: nat)
    requires IsSyncRun(w, run, actions) && i < |actions| && Mates(run[i + 1], r, q)
    ensures Mates(run[i], r, q) && SyncCall(run[i], actions[i], r) == SyncCall(run[i], actions[i], q)
  {
    StepKeepsInv(w, run, actions, i);
    SyncSamePart(w, run[i], actions[i], run[i + 1], r, q);
  }

  /** Ranks that are in one communicator have made the same calls in the same order, releases included. */
  lemma {:induction false} SameSyncCalls(w: World, run: seq<State>, actions: seq<SyncAction>, i: nat, r: nat, q: nat)
    requires IsSyncRun(w, run, actions) && i <= |actions| && Mates(run[i], r, q)
    ensures SyncCalls(run, actions, i, r) == SyncCalls(run, actions, i, q)
    decreases i
  {
    if i > 0 {
      SyncSameCall(w, run, actions, i - 1, r, q);
      SameSyncCalls(w, run, actions, i - 1, r, q);
    }
  }

  function StepOf(call: (Pc, CommId)): SyncAction {
    match call.0
    case AtSplit => Round(Split(call.1))
    case AtBcast => Round(Bcast(call.1))
    case AtReduce => Round(Reduce(call.1))
    case _ => Free(call.1)
  }

  /** No deadlock: the next call of any rank that has not returned can be made at once. */
  lemma SyncCallIsPossible(w: World, run: seq<State>, actions: seq<SyncAction>, i: nat, r: nat)
    requires IsSyncRun(w, run, actions) && i <= |actions| && r < |run[i].procs| && !run[i].procs[r].pc.Returned?
    ensures NextSync(run[i].procs[r]).Some? && SyncEnabled(run[i], StepOf(NextSync(run[i].procs[r]).value))
  {
    RunKeepsSyncInv(w, run, actions, i);
    NextIsEnabled(w, run[i], r);
  }

  lemma NextIsEnabled(w: World, s: State, r: nat)
    requires SyncInv(w, s) && r < |s.procs| && !s.procs[r].pc.Returned?
    ensures NextSync(s.procs[r]).Some? && SyncEnabled(s, StepOf(NextSync(s.procs[r]).value))
  {
    assert RankOk(w, s, r);
    AllMatched(w, s, r);
    var call := NextSync(s.procs[r]).value;
    forall q | q in s.members[call.1] ensures CalledBy(s, q, call) {
      MakesCall(w, s, q, call);
    }
    CalledIsEnabled(s, call);
  }

  lemma CalledIsEnabled(s: State, call: (Pc, CommId))
    requires call.1 in s.members && s.members[call.1] != {} && !call.0.Returned?
    requires forall q :: q in s.members[call.1] ==> CalledBy(s, q, call)
    ensures SyncEnabled(s, StepOf(call))
  {
  }

  lemma MakesCall(w: World, s: State, q: nat, call: (Pc, CommId))
    requires Inv(w, s) && AllCall(s, call) && q in s.members[call.1]
    ensures CalledBy(s, q, call)
  {
    assert NextSync(s.procs[q]) == Some(call) && RankOk(w, s, q);
  }

  /** The rank is at the call, and the communicator of the call is the one in the variable it uses. */
  predicate CalledBy(s: State, q: nat, call: (Pc, CommId)) {
    && q < |s.procs| && s.procs[q].pc == call.0
    && (if call.0.AtSplit? || call.0.AtFreeOld? then s.procs[q].oldcomm else s.procs[q].newcomm) == Some(call.1)
  }

  /** The bound of the local runs holds as well. */
  lemma SyncTerminates(w: World, run: seq<State>, actions: seq<SyncAction>, k: nat)
    requires IsSyncRun(w, run, actions) && Separated(w, k)
    ensures |actions| <= |w.names| * (5 * (k + 1) + 1)
  {
    var run', actions' := SyncRunIsRun(w, run, actions, |actions|);
    ElectionTerminates(w, run', actions', k);
  }
}
