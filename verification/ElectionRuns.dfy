/** What get_unique_host of src/adksys_mpi.c achieves over whole runs, for any hash and so for any
    collisions: safety, matching of collectives, progress, termination, and the life of communicators. */
module ElectionRuns {
  import opened AdiakTypes
  import opened MpiElection
  import opened ElectionInvariant
  import opened HostHash

  // ---------------------------------------------------------------- reachable states

  lemma InitInv(w: World)
    ensures Inv(w, Init(w))
  {
    var s := Init(w);
    assert Class(w, []) == Ranks(w);
    forall r | 0 <= r < |w.names| ensures RankOk(w, s, r) {
      assert forall id: CommId :: s.freed[(r, id)] == 0;
    }
  }

  lemma StepKeeps(w: World, s: State, a: Action, t: State)
    requires Inv(w, s) && Step(w, s, a, t)
    ensures Inv(w, t)
  {
    match a
    case Split(c) => SplitKeeps(w, s, c);
    case FreeOld(r) => FreeOldKeeps(w, s, r);
    case Bcast(c) =>
      var root: nat :| IsRoot(s, s.members[c], root) && root < |w.names| && t == AfterBcast(w, s, c, root);
      BcastKeeps(w, s, c, root);
    case Reduce(c) => ReduceKeeps(w, s, c);
    case Return(r) => ReturnKeeps(w, s, r);
  }

  lemma {:induction false} RunKeeps(w: World, run: seq<State>, actions: seq<Action>, i: nat)
    requires IsRun(w, run, actions) && i < |run|
    ensures Inv(w, run[i])
  {
    if i == 0 {
      InitInv(w);
    } else {
      RunKeeps(w, run, actions, i - 1);
      StepKeeps(w, run[i - 1], actions[i - 1], run[i]);
    }
  }

  ghost predicate AllReturned(s: State) {
    forall r :: 0 <= r < |s.procs| ==> s.procs[r].pc.Returned?
  }

  // ---------------------------------------------------------------- safety

  /** r is the lowest rank with its host name. */
  ghost predicate FirstOfHost(w: World, r: nat) {
    r < |w.names| && forall q :: 0 <= q < r ==> w.names[q] != w.names[r]
  }

  /** A rank that has returned was last in the communicator of exactly the ranks with its host name,
      and it is told 1 if it is the lowest of them and 0 otherwise. */
  lemma ElectionSafety(w: World, run: seq<State>, actions: seq<Action>, i: nat, r: nat)
    requires IsRun(w, run, actions) && i < |run|
    requires r < |w.names| && r < |run[i].procs| && run[i].procs[r].pc.Returned?
    ensures var p := run[i].procs[r];
            && p.newcomm.Some? && p.newcomm.value in run[i].members
            && (forall q :: q in run[i].members[p.newcomm.value] <==> 0 <= q < |w.names| && w.names[q] == w.names[r])
            && (p.result == 1 <==> FirstOfHost(w, r)) && (p.result == 0 <==> !FirstOfHost(w, r))
  {
    RunKeeps(w, run, actions, i);
    var s := run[i];
    assert RankOk(w, s, r);
    InOwnClass(w, s, r);
    var c := Current(s.procs[r]);
    var ms := Class(w, c);
    assert s.members[c] == ms;
    forall q | 0 <= q < |w.names| ensures q in ms <==> w.names[q] == w.names[r] {
      if q in ms {
        assert SameNames(w, ms);
      } else {
        assert !Leads(w, w.names[q], c) && Leads(w, w.names[r], c);
      }
    }
    if FirstOfHost(w, r) {
      forall q | q in ms ensures r <= q {
        assert w.names[q] == w.names[r];
      }
    } else {
      var q: nat :| q < r && w.names[q] == w.names[r];
      assert q in ms;
    }
  }

  /** Once all ranks have returned, every host has exactly one elected rank. */
  lemma OneRankPerHost(w: World, run: seq<State>, actions: seq<Action>, name: string)
    requires IsRun(w, run, actions) && name in w.names && |run[|actions|].procs| == |w.names| &&
        AllReturned(run[|actions|])
    ensures exists r: nat :: r < |w.names| && w.names[r] == name && run[|actions|].procs[r].result == 1
    ensures forall q, r | 0 <= q < |w.names| && 0 <= r < |w.names| && w.names[q] == w.names[r] == name ::
              run[|actions|].procs[q].result == 1 && run[|actions|].procs[r].result == 1 ==> q == r
  {
    var s := run[|actions|];
    forall r: nat | r < |w.names| ensures s.procs[r].result == 1 <==> FirstOfHost(w, r) {
      ElectionSafety(w, run, actions, |actions|, r);
    }
    var some: nat :| some < |w.names| && w.names[some] == name;
    var first := LowestWith(w, some);
  }

  lemma {:induction false} LowestWith(w: World, r: nat) returns (m: nat)
    requires r < |w.names|
    ensures m <= r && w.names[m] == w.names[r] && FirstOfHost(w, m)
  {
    if FirstOfHost(w, r) {
      m := r;
    } else {
      var q: nat :| q < r && w.names[q] == w.names[r];
      m := LowestWith(w, q);
    }
  }

  // ---------------------------------------------------------------- collectives

  predicate Collective(pc: Pc) {
    pc.AtSplit? || pc.AtBcast? || pc.AtReduce?
  }

  /** The collective that a rank issues next, unless it returns first. */
  function NextCall(p: Proc): (call: Option<(Pc, CommId)>) {
    if p.pc.AtFreeOld? then Some((AtBcast, Current(p)))
    else if Collective(p.pc) then Some((p.pc, Current(p)))
    else None
  }

  /** q is in the communicator that r is in. */
  ghost predicate Mates(s: State, r: nat, q: nat) {
    r < |s.procs| && q < |s.procs| && Current(s.procs[r]) in s.members && q in s.members[Current(s.procs[r])]
  }

  /** The members of a rank's communicator issue the same collective on it next, or none. */
  lemma CollectivesMatch(w: World, run: seq<State>, actions: seq<Action>, i: nat, r: nat, q: nat)
    requires IsRun(w, run, actions) && i < |run|
    requires Mates(run[i], r, q)
    ensures NextCall(run[i].procs[q]) == NextCall(run[i].procs[r])
  {
    RunKeeps(w, run, actions, i);
    assert RankOk(w, run[i], r);
    SameCurrent(w, run[i], r, q);
  }

  /** What rank r calls in a step: the collective it was at, if it has moved. */
  function Call(p: Proc, p': Proc): seq<(Pc, CommId)> {
    if Collective(p.pc) && p' != p then [(p.pc, Current(p))] else []
  }

  /** The collectives that rank r has taken part in, in order. */
  ghost function Calls(run: seq<State>, i: nat, r: nat): seq<(Pc, CommId)>
    requires i < |run|
  {
    if i == 0 || r >= |run[i - 1].procs| || r >= |run[i].procs| then []
    else Calls(run, i - 1, r) + Call(run[i - 1].procs[r], run[i].procs[r])
  }

  /** The communicator a collective is on. */
  function CommOf(a: Action): Option<CommId> {
    match a
    case Split(c) => Some(c)
    case Bcast(c) => Some(c)
    case Reduce(c) => Some(c)
    case FreeOld(_) => None
    case Return(_) => None
  }

  function PcOf(a: Action): Pc {
    match a
    case Split(_) => AtSplit
    case Bcast(_) => AtBcast
    case Reduce(_) => AtReduce
    case FreeOld(_) => AtFreeOld
    case Return(_) => AtFreeNew
  }

  /** A collective is a call of exactly the members of its communicator. */
  lemma CallIn(w: World, s: State, a: Action, t: State, r: nat)
    requires |s.procs| == |w.names| && Step(w, s, a, t) && r < |w.names|
    ensures |t.procs| == |w.names|
    ensures Call(s.procs[r], t.procs[r])
         == if CommOf(a).Some? && r in s.members[CommOf(a).value] then [(PcOf(a), CommOf(a).value)] else []
  {
  }

  /** In one step ranks that end in one communicator call the same. */
  lemma SamePart(w: World, s: State, a: Action, t: State, r: nat, q: nat)
    requires Inv(w, s) && Inv(w, t) && Step(w, s, a, t) && Mates(t, r, q)
    ensures Mates(s, r, q) && Call(s.procs[r], t.procs[r]) == Call(s.procs[q], t.procs[q])
  {
    assert RankOk(w, t, r);
    SameCurrent(w, t, r, q);
    CallIn(w, s, a, t, r);
    CallIn(w, s, a, t, q);
    WereTogether(w, s, a, t, r, q);
    WereTogether(w, s, a, t, q, r);
  }

  lemma SameCall(w: World, run: seq<State>, actions: seq<Action>, i: nat, r: nat, q: nat)
    requires IsRun(w, run, actions) && i + 1 < |run| && Mates(run[i + 1], r, q)
    ensures Mates(run[i], r, q)
    ensures Call(run[i].procs[r], run[i + 1].procs[r]) == Call(run[i].procs[q], run[i + 1].procs[q])
  {
    RunKeeps(w, run, actions, i);
    RunKeeps(w, run, actions, i + 1);
    SamePart(w, run[i], actions[i], run[i + 1], r, q);
  }

  /** Ranks that are in one communicator have been through the same collectives in the same order. */
  lemma {:induction false} SameCalls(w: World, run: seq<State>, actions: seq<Action>, i: nat, r: nat, q: nat)
    requires IsRun(w, run, actions) && i < |run| && Mates(run[i], r, q)
    ensures Calls(run, i, q) == Calls(run, i, r)
  {
    if i > 0 {
      SameCall(w, run, actions, i - 1, r, q);
      SameCalls(w, run, actions, i - 1, r, q);
    }
  }

  /** A step leaves a rank where it is or takes it one split further. */
  lemma StepCurrent(w: World, s: State, a: Action, t: State, r: nat)
    requires |s.procs| == |w.names| && Step(w, s, a, t) && r < |w.names|
    ensures |t.procs| == |w.names|
    ensures CommOf(a).Some? && r in s.members[CommOf(a).value] ==> Current(s.procs[r]) == CommOf(a).value
    ensures Current(t.procs[r]) == Current(s.procs[r]) ||
            Current(t.procs[r]) == Current(s.procs[r]) + [w.color(w.names[r], s.procs[r].index)]
  {
  }

  /** Ranks that are in one communicator were in one communicator before, and take part together. */
  lemma WereTogether(w: World, s: State, a: Action, t: State, r: nat, q: nat)
    requires Inv(w, s) && |s.procs| == |t.procs| && Step(w, s, a, t) && r < |w.names| && q < |w.names|
    requires q in Class(w, Current(t.procs[r]))
    ensures Current(s.procs[r]) in s.members && q in s.members[Current(s.procs[r])]
    ensures CommOf(a).Some? && r in s.members[CommOf(a).value] ==> q in s.members[CommOf(a).value]
  {
    var c := Current(s.procs[r]);
    assert RankOk(w, s, r);
    StepCurrent(w, s, a, t, r);
    LeadsStep(w, w.names[q], c, w.color(w.names[r], s.procs[r].index));
    assert q in Class(w, c);
  }

  // ---------------------------------------------------------------- progress

  /** No deadlock: until all ranks have returned some step is possible. */
  lemma SomeStepIsPossible(w: World, run: seq<State>, actions: seq<Action>, i: nat) returns (a: Action)
    requires IsRun(w, run, actions) && i < |run| && !AllReturned(run[i])
    ensures Enabled(run[i], a)
  {
    var s := run[i];
    RunKeeps(w, run, actions, i);
    if q: nat :| q < |s.procs| && (s.procs[q].pc.AtFreeOld? || s.procs[q].pc.AtFreeNew?) {
      assert RankOk(w, s, q);
      a := if s.procs[q].pc.AtFreeOld? then FreeOld(q) else Return(q);
    } else {
      var r: nat :| r < |s.procs| && !s.procs[r].pc.Returned?;
      a := CollectiveIsPossible(w, s, r);
    }
  }

  lemma CollectiveIsPossible(w: World, s: State, r: nat) returns (a: Action)
    requires Inv(w, s) && r < |s.procs| && Collective(s.procs[r].pc)
    requires forall q :: 0 <= q < |s.procs| ==> !s.procs[q].pc.AtFreeOld? && !s.procs[q].pc.AtFreeNew?
    ensures Enabled(s, a)
  {
    var c, pc := Current(s.procs[r]), s.procs[r].pc;
    assert RankOk(w, s, r);
    InOwnClass(w, s, r);
    assert r in s.members[c];
    forall q | q in s.members[c]
      ensures q < |s.procs| && s.procs[q].pc == pc &&
          (if pc.AtSplit? then s.procs[q].oldcomm else s.procs[q].newcomm) == Some(c)
    {
      SameCurrent(w, s, r, q);
      assert RankOk(w, s, q);
    }
    a := if pc.AtSplit? then Split(c) else if pc.AtBcast? then Bcast(c) else Reduce(c);
  }

  // ---------------------------------------------------------------- number of rounds

  /** A rank leaves the loop in the first round whose communicator holds only its own name. */
  lemma FirstUniformRound(w: World, run: seq<State>, actions: seq<Action>, i: nat, r: nat)
    requires IsRun(w, run, actions) && i < |run|
    requires r < |w.names| && r < |run[i].procs| && run[i].procs[r].pc.Returned?
    ensures run[i].procs[r].index >= 1 && UniformAfter(w, w.names[r], run[i].procs[r].index)
    ensures forall j: nat :: 1 <= j < run[i].procs[r].index ==> !UniformAfter(w, w.names[r], j)
  {
    RunKeeps(w, run, actions, i);
    assert RankOk(w, run[i], r);
  }

  /** Round j gives the two names different colors. */
  predicate Differs(w: World, q: nat, r: nat, j: nat)
    requires q < |w.names| && r < |w.names|
  {
    w.color(w.names[q], j) != w.color(w.names[r], j)
  }

  /** For any two different host names one of the rounds 0 to k gives different colors. */
  ghost predicate Separated(w: World, k: nat) {
    forall q: nat, r: nat :: q < |w.names| && r < |w.names| && w.names[q] != w.names[r] ==>
      exists j: nat :: j <= k && Differs(w, q, r, j)
  }

  lemma {:induction false} OnePathOneColor(w: World, a: string, b: string, k: nat, j: nat)
    requires Colors(w, a, k) == Colors(w, b, k) && j < k
    ensures w.color(a, j) == w.color(b, j)
  {
    assert Colors(w, a, k)[k - 1] == Colors(w, b, k)[k - 1] by {
      ColorsLength(w, a, k - 1);
      ColorsLength(w, b, k - 1);
    }
    ColorsLength(w, a, k - 1);
    ColorsLength(w, b, k - 1);
    if j < k - 1 {
      assert Colors(w, a, k)[..k - 1] == Colors(w, b, k)[..k - 1];
      OnePathOneColor(w, a, b, k - 1, j);
    }
  }

  lemma SeparatedIsUniform(w: World, k: nat, name: string)
    requires Separated(w, k)
    ensures UniformAfter(w, name, k + 1)
  {
    var id := Colors(w, name, k + 1);
    ColorsLength(w, name, k + 1);
    forall q: nat, r: nat | q in Class(w, id) && r in Class(w, id) ensures w.names[q] == w.names[r] {
      if w.names[q] != w.names[r] {
        var j: nat :| j <= k && Differs(w, q, r, j);
        OnePathOneColor(w, w.names[q], w.names[r], k + 1, j);
      }
    }
  }

  /** No rank ever goes into a round after that. */
  lemma RoundsBounded(w: World, run: seq<State>, actions: seq<Action>, k: nat, i: nat, r: nat)
    requires IsRun(w, run, actions) && Separated(w, k) && i < |run| && r < |run[i].procs|
    ensures run[i].procs[r].index <= k + 1
    ensures run[i].procs[r].pc.AtSplit? ==> run[i].procs[r].index <= k
  {
    RunKeeps(w, run, actions, i);
    assert RankOk(w, run[i], r);
    SeparatedIsUniform(w, k, w.names[r]);
  }

  // ---------------------------------------------------------------- termination

  /** What is left of a round. */
  function StepsLeft(pc: Pc): nat {
    match pc
    case AtFreeOld => 4
    case AtBcast => 3
    case AtReduce => 2
    case AtSplit | AtFreeNew => 1
    case Returned => 0
  }

  function Weight(p: Proc, k: nat): int {
    5 * (k + 1 - p.index) + StepsLeft(p.pc)
  }

  function Total(procs: seq<Proc>, k: nat): int {
    if procs == [] then 0 else Weight(procs[0], k) + Total(procs[1..], k)
  }

  lemma {:induction false} TotalFalls(ps: seq<Proc>, ps': seq<Proc>, k: nat)
    requires |ps| == |ps'| && forall r :: 0 <= r < |ps| ==> Weight(ps'[r], k) <= Weight(ps[r], k)
    ensures Total(ps', k) <= Total(ps, k)
    ensures (exists r :: 0 <= r < |ps| && Weight(ps'[r], k) < Weight(ps[r], k)) ==> Total(ps', k) < Total(ps, k)
  {
    if ps != [] {
      TotalFalls(ps[1..], ps'[1..], k);
      if r :| 0 < r < |ps| && Weight(ps'[r], k) < Weight(ps[r], k) {
        assert Weight(ps'[1..][r - 1], k) < Weight(ps[1..][r - 1], k);
      }
    }
  }

  lemma {:induction false} TotalOfEqual(ps: seq<Proc>, k: nat, weight: int)
    requires forall r :: 0 <= r < |ps| ==> Weight(ps[r], k) == weight
    ensures Total(ps, k) == |ps| * weight
  {
    if ps != [] {
      TotalOfEqual(ps[1..], k, weight);
      assert |ps| * weight == weight + (|ps| - 1) * weight;
    }
  }

  /** r is one of the ranks that an action moves. */
  ghost predicate Moves(s: State, a: Action, r: nat) {
    match a
    case FreeOld(q) => r == q
    case Return(q) => r == q
    case Split(c) => c in s.members && r in s.members[c]
    case Bcast(c) => c in s.members && r in s.members[c]
    case Reduce(c) => c in s.members && r in s.members[c]
  }

  lemma RankFalls(w: World, s: State, a: Action, t: State, r: nat, k: nat)
    requires Step(w, s, a, t) && r < |s.procs|
    ensures |t.procs| == |s.procs| && Weight(t.procs[r], k) <= Weight(s.procs[r], k) - if Moves(s, a, r) then 1 else 0
  {
  }

  lemma SomeoneMoves(w: World, s: State, a: Action, t: State) returns (m: nat)
    requires Step(w, s, a, t)
    ensures m < |s.procs| && Moves(s, a, m)
  {
    if a.FreeOld? || a.Return? {
      m := a.r;
    } else {
      m :| m in s.members[a.c];
    }
  }

  /** Every step takes some rank further, and none back. */
  lemma StepFalls(w: World, s: State, a: Action, t: State, k: nat)
    requires Step(w, s, a, t)
    ensures |t.procs| == |s.procs| && Total(t.procs, k) < Total(s.procs, k)
  {
    var m := SomeoneMoves(w, s, a, t);
    forall r: nat | r < |s.procs|
      ensures |t.procs| == |s.procs| && Weight(t.procs[r], k) <= Weight(s.procs[r], k) - if Moves(s, a, r) then 1 else 0
    {
      RankFalls(w, s, a, t, r, k);
    }
    RankFalls(w, s, a, t, m, k);
    TotalFalls(s.procs, t.procs, k);
  }

  lemma {:induction false} TotalAfter(w: World, run: seq<State>, actions: seq<Action>, k: nat, i: nat)
    requires IsRun(w, run, actions) && i < |run|
    ensures Total(run[i].procs, k) <= |w.names| * (5 * (k + 1) + 1) - i
  {
    if i == 0 {
      TotalOfEqual(run[0].procs, k, 5 * (k + 1) + 1);
    } else {
      TotalAfter(w, run, actions, k, i - 1);
      StepFalls(w, run[i - 1], actions[i - 1], run[i], k);
    }
  }

  /** If the hash separates all names within the rounds 0 to k, every run is this short. */
  lemma ElectionTerminates(w: World, run: seq<State>, actions: seq<Action>, k: nat)
    requires IsRun(w, run, actions) && Separated(w, k)
    ensures |actions| <= |w.names| * (5 * (k + 1) + 1)
  {
    var s := run[|actions|];
    TotalAfter(w, run, actions, k, |actions|);
    forall r | 0 <= r < |s.procs| ensures 0 <= Weight(s.procs[r], k) {
      RoundsBounded(w, run, actions, k, |actions|, r);
    }
    SumOfNonnegative(s.procs, k);
  }

  lemma {:induction false} SumOfNonnegative(ps: seq<Proc>, k: nat)
    requires forall r :: 0 <= r < |ps| ==> 0 <= Weight(ps[r], k)
    ensures 0 <= Total(ps, k)
  {
    if ps != [] {
      SumOfNonnegative(ps[1..], k);
    }
  }

  // ---------------------------------------------------------------- exactly when it terminates

  lemma {:induction false} LowestOf(ms: set<nat>) returns (m: nat)
    requires ms != {}
    ensures IsLowest(ms, m)
  {
    var r :| r in ms;
    if ms == {r} {
      m := r;
    } else {
      var rest := LowestOf(ms - {r});
      assert forall q :: q in ms ==> q == r || q in ms - {r};
      m := if r < rest then r else rest;
    }
  }

  /** What is enabled can be done. */
  lemma EnabledSteps(w: World, s: State, a: Action) returns (t: State)
    requires Inv(w, s) && Enabled(s, a)
    ensures Step(w, s, a, t)
  {
    match a
    case Split(c) => t := AfterSplit(w, s, c);
    case FreeOld(r) => t := AfterFreeOld(s, r);
    case Bcast(c) =>
      var root := LowestOf(s.members[c]);
      assert s.members[c] == Class(w, c);
      RootIsLowest(w, s, c, root);
      t := AfterBcast(w, s, c, root);
    case Reduce(c) => t := AfterReduce(w, s, c);
    case Return(r) => t := AfterReturn(s, r, IsRoot(s, s.members[s.procs[r].newcomm.value], r));
  }

  ghost predicate RunsBounded(w: World, bound: nat) {
    forall run, actions :: IsRun(w, run, actions) ==> |actions| <= bound
  }

  lemma LongerRun(w: World, run: seq<State>, actions: seq<Action>) returns (run': seq<State>, actions': seq<Action>)
    requires IsRun(w, run, actions) && !AllReturned(run[|actions|])
    ensures IsRun(w, run', actions') && |actions'| == |actions| + 1
  {
    var s := run[|actions|];
    var a := SomeStepIsPossible(w, run, actions, |actions|);
    RunKeeps(w, run, actions, |actions|);
    var t := EnabledSteps(w, s, a);
    run', actions' := run + [t], actions + [a];
    OneMore(w, run, actions, a, t);
  }

  lemma OneMore(w: World, run: seq<State>, actions: seq<Action>, a: Action, t: State)
    requires IsRun(w, run, actions) && Step(w, run[|actions|], a, t)
    ensures IsRun(w, run + [t], actions + [a])
  {
    var run', actions' := run + [t], actions + [a];
    forall i | 0 <= i < |actions'| ensures Step(w, run'[i], actions'[i], run'[i + 1]) {
      if i < |actions| {
        assert Step(w, run[i], actions[i], run[i + 1]);
      }
    }
  }

  lemma {:induction false} CompleteRun(w: World, run: seq<State>, actions: seq<Action>, bound: nat)
    returns (run': seq<State>, actions': seq<Action>)
    requires IsRun(w, run, actions) && RunsBounded(w, bound)
    ensures IsRun(w, run', actions') && AllReturned(run'[|actions'|])
    decreases bound - |actions|
  {
    if AllReturned(run[|actions|]) {
      run', actions' := run, actions;
    } else {
      run', actions' := LongerRun(w, run, actions);
      assert |actions'| <= bound;
      run', actions' := CompleteRun(w, run', actions', bound);
    }
  }

  lemma {:induction false} IndexBounded(w: World, run: seq<State>, actions: seq<Action>, i: nat, r: nat)
    requires IsRun(w, run, actions) && i < |run| && r < |w.names|
    ensures r < |run[i].procs| && run[i].procs[r].index <= i
  {
    if i > 0 {
      IndexBounded(w, run, actions, i - 1, r);
      OneSplitAtMost(w, run[i - 1], actions[i - 1], run[i], r);
    }
  }

  lemma {:induction false} SameColorsSamePath(w: World, a: string, b: string, k: nat)
    requires forall j: nat :: j < k ==> w.color(a, j) == w.color(b, j)
    ensures Colors(w, a, k) == Colors(w, b, k)
  {
    if k > 0 {
      SameColorsSamePath(w, a, b, k - 1);
    }
  }

  lemma SameColorsNotUniform(w: World, q: nat, r: nat, k: nat)
    requires q < |w.names| && r < |w.names| && w.names[q] != w.names[r]
    requires forall j: nat :: j < k ==> w.color(w.names[q], j) == w.color(w.names[r], j)
    ensures !UniformAfter(w, w.names[r], k)
  {
    SameColorsSamePath(w, w.names[q], w.names[r], k);
    ColorsLength(w, w.names[r], k);
    assert q in Class(w, Colors(w, w.names[r], k)) && r in Class(w, Colors(w, w.names[r], k));
  }

  /** A rank that has returned had a color of its own in some round, against any other name. */
  lemma ReturnedWasSeparated(w: World, run: seq<State>, actions: seq<Action>, i: nat, q: nat, r: nat)
    requires IsRun(w, run, actions) && i < |run| && q < |w.names| && r < |w.names| && w.names[q] != w.names[r]
    requires r < |run[i].procs| && run[i].procs[r].pc.Returned?
    ensures exists j: nat :: j < i && Differs(w, q, r, j)
  {
    var k := run[i].procs[r].index;
    FirstUniformRound(w, run, actions, i, r);
    IndexBounded(w, run, actions, i, r);
    if forall j: nat :: j < k ==> w.color(w.names[q], j) == w.color(w.names[r], j) {
      SameColorsNotUniform(w, q, r, k);
    } else {
      var j: nat :| j < k && w.color(w.names[q], j) != w.color(w.names[r], j);
      assert Differs(w, q, r, j);
    }
  }

  /** The election terminates exactly if the hash separates all different names in some round each. */
  lemma TerminatesExactly(w: World)
    ensures (exists bound: nat :: RunsBounded(w, bound)) <==> (exists k: nat :: Separated(w, k))
  {
    if k: nat :| Separated(w, k) {
      forall run, actions | IsRun(w, run, actions) ensures |actions| <= |w.names| * (5 * (k + 1) + 1) {
        ElectionTerminates(w, run, actions, k);
      }
      assert RunsBounded(w, |w.names| * (5 * (k + 1) + 1));
    }
    if bound: nat :| RunsBounded(w, bound) {
      BoundedIsSeparated(w, bound);
    }
  }

  lemma BoundedIsSeparated(w: World, bound: nat)
    requires RunsBounded(w, bound)
    ensures Separated(w, bound)
  {
    var run, actions := CompleteRun(w, [Init(w)], [], bound);
    var end := |actions|;
    forall q: nat, r: nat | q < |w.names| && r < |w.names| && w.names[q] != w.names[r]
      ensures exists j: nat :: j <= bound && Differs(w, q, r, j)
    {
      IndexBounded(w, run, actions, end, r);
      ReturnedWasSeparated(w, run, actions, end, q, r);
    }
  }

  /** With the hash in use there are jobs that it never separates: two hosts are enough. */
  lemma SomeJobsNeverEnd() returns (w: World)
    ensures |w.names| == 2 && w.color == HostColor
    ensures forall run: seq<State>, actions, i: nat :: IsRun(w, run, actions) && i < |run| ==> NoneReturned(run[i])
  {
    var x, y := TwoNamesOneColor();
    w := World([x, y], HostColor);
    forall run: seq<State>, actions, i: nat | IsRun(w, run, actions) && i < |run| ensures NoneReturned(run[i]) {
      RunKeeps(w, run, actions, i);
      forall r | 0 <= r < |run[i].procs| ensures !run[i].procs[r].pc.Returned? {
        if run[i].procs[r].pc.Returned? {
          ReturnedWasSeparated(w, run, actions, i, 1 - r, r);
        }
      }
    }
  }

  ghost predicate NoneReturned(s: State) {
    forall r :: 0 <= r < |s.procs| ==> !s.procs[r].pc.Returned?
  }

  // ---------------------------------------------------------------- the life of communicators

  /** Every communicator that a rank has been in exists. */
  lemma {:induction false} PathExists(w: World, run: seq<State>, actions: seq<Action>, i: nat, r: nat, k: nat)
    requires IsRun(w, run, actions) && i < |run| && r < |run[i].procs| && k <= run[i].procs[r].index
    ensures r < |w.names| && Colors(w, w.names[r], k) in run[i].members
  {
    RunKeeps(w, run, actions, i);
    assert RankOk(w, run[i], r);
    if k < run[i].procs[r].index {
      assert i > 0;
      RunKeeps(w, run, actions, i - 1);
      OneSplitAtMost(w, run[i - 1], actions[i - 1], run[i], r);
      PathExists(w, run, actions, i - 1, r, k);
    }
  }

  lemma OneSplitAtMost(w: World, s: State, a: Action, t: State, r: nat)
    requires Step(w, s, a, t) && r < |s.procs|
    ensures |t.procs| == |s.procs| && t.procs[r].index <= s.procs[r].index + 1
    ensures forall id :: id in s.members ==> id in t.members
  {
  }

  /** At no time has a rank released a communicator twice, nor the base communicator, nor one that it is
      not in, nor the one it is in a collective on or about to be. */
  lemma NoEarlyRelease(w: World, run: seq<State>, actions: seq<Action>, i: nat, r: nat, id: CommId)
    requires IsRun(w, run, actions) && i < |run| && r < |w.names| && r < |run[i].procs|
    ensures run[i].freed[(r, id)] <= 1 && run[i].freed[(r, [])] == 0
    ensures run[i].freed[(r, id)] == 1 ==> id in run[i].members && r in run[i].members[id]
    ensures NextCall(run[i].procs[r]).Some? ==> run[i].freed[(r, Current(run[i].procs[r]))] == 0
  {
    var s := run[i];
    RunKeeps(w, run, actions, i);
    assert RankOk(w, s, r);
    InOwnClass(w, s, r);
    assert s.freed[(r, id)] == Due(w, w.names[r], id, Released(s.procs[r]));
    assert s.freed[(r, [])] == Due(w, w.names[r], [], Released(s.procs[r]));
    var c := Current(s.procs[r]);
    assert s.freed[(r, c)] == Due(w, w.names[r], c, Released(s.procs[r]));
    if s.freed[(r, id)] == 1 {
      PathExists(w, run, actions, i, r, |id|);
      assert Colors(w, w.names[r], |id|) == id;
      assert s.members[id] == Class(w, id);
    }
  }

  /** Once a rank has returned it has released every communicator that a split put it in exactly once. */
  lemma AllReleasedOnce(w: World, run: seq<State>, actions: seq<Action>, i: nat, r: nat, id: CommId)
    requires IsRun(w, run, actions) && i < |run| && r < |w.names| && r < |run[i].procs| && run[i].procs[r].pc.Returned?
    ensures run[i].freed[(r, id)] == if id in run[i].members && r in run[i].members[id] && id != [] then 1 else 0
  {
    var s := run[i];
    RunKeeps(w, run, actions, i);
    assert RankOk(w, s, r);
    NoEarlyRelease(w, run, actions, i, r, id);
    assert s.freed[(r, id)] == Due(w, w.names[r], id, s.procs[r].index);
    if id in s.members && r in s.members[id] && id != [] {
      assert AllPast(s, s.members[id], |id|);
      assert s.members[id] == Class(w, id);
    }
  }
}
