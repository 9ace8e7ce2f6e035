/** gethostlist of src/adksys_mpi.c when MPI_Comm_free, a collective in section 6.4.3 of MPI 3.1, holds its
    callers back until all members of the communicator have called it. */
module HostListSync {
  import opened AdiakTypes
  import opened MpiHostList

  // ---------------------------------------------------------------- the release as a collective

  /** The ranks that were told u share a communicator, which they free together. */
  datatype SyncAction = Round(a: Action) | FreeGroup(u: int)

  predicate InGroup(s: State, u: int, r: nat) {
    r < |s| && s[r].unique == u
  }

  ghost predicate GroupFrees(s: State, u: int) {
    && (exists r: nat :: InGroup(s, u, r))
    && (forall r: nat :: InGroup(s, u, r) ==> s[r].pc == AtFree && s[r].hostcomm.Some?)
  }

  function PastFree(p: Proc): Proc {
    p.(pc := AtBcastLen, hostcomm := None, freed := p.freed + 1)
  }

  /** The members of the group below n have freed it. */
  function FreedBelow(s: State, u: int, n: nat): State {
    seq(|s|, r requires 0 <= r < |s| => if r < n && s[r].unique == u then PastFree(s[r]) else s[r])
  }

  ghost predicate SyncEnabled(s: State, a: SyncAction) {
    match a
    case Round(b) => !b.Free? && Enabled(s, b)
    case FreeGroup(u) => GroupFrees(s, u)
  }

  ghost predicate SyncStep(fulls: seq<string>, s: State, a: SyncAction, t: State) {
    && Hostnames(fulls) && |s| == |t| == |fulls| && SyncEnabled(s, a)
    && match a
       case Round(b) => Step(fulls, s, b, t)
       case FreeGroup(u) => t == FreedBelow(s, u, |s|)
  }

  ghost predicate SyncStepAt(fulls: seq<string>, run: seq<State>, actions: seq<SyncAction>, i: nat)
    requires i < |actions| && i + 1 < |run|
  {
    SyncStep(fulls, run[i], actions[i], run[i + 1])
  }

  ghost predicate IsSyncRun(fulls: seq<string>, unique: seq<int>, run: seq<State>, actions: seq<SyncAction>) {
    && |run| == |actions| + 1 && IsInit(fulls, unique, run[0])
    && forall i :: 0 <= i < |actions| ==> SyncStepAt(fulls, run, actions, i)
  }

  // ---------------------------------------------------------------- local releases do as much

  lemma OneMore(fulls: seq<string>, unique: seq<int>, run: seq<State>, actions: seq<Action>, a: Action, t: State)
    requires IsRun(fulls, unique, run, actions) && Step(fulls, run[|actions|], a, t)
    ensures IsRun(fulls, unique, run + [t], actions + [a])
  {
    var run', actions' := run + [t], actions + [a];
    forall i | 0 <= i < |actions'| ensures Step(fulls, run'[i], actions'[i], run'[i + 1]) {
      if i < |actions| {
        assert Step(fulls, run[i], actions[i], run[i + 1]);
      }
    }
  }

  lemma FreeOne(fulls: seq<string>, s: State, u: int, n: nat)
    requires Hostnames(fulls) && |s| == |fulls| && GroupFrees(s, u) && n < |s|
    ensures s[n].unique == u ==> Step(fulls, FreedBelow(s, u, n), Free(n), FreedBelow(s, u, n + 1))
    ensures s[n].unique != u ==> FreedBelow(s, u, n + 1) == FreedBelow(s, u, n)
  {
    assert InGroup(s, u, n) <==> s[n].unique == u;
  }

  lemma {:induction false} ReleasesAreLocal(fulls: seq<string>, unique: seq<int>, run: seq<State>,
      actions: seq<Action>, u: int, n: nat)
    returns (run': seq<State>, actions': seq<Action>)
    requires Hostnames(fulls) && IsRun(fulls, unique, run, actions) && GroupFrees(run[|actions|], u)
    requires n <= |run[|actions|]| == |fulls|
    ensures IsRun(fulls, unique, run', actions') && run'[|actions'|] == FreedBelow(run[|actions|], u, n)
    ensures |actions'| >= |actions|
    ensures (exists r: nat :: r < n && InGroup(run[|actions|], u, r)) ==> |actions'| > |actions|
  {
    var s := run[|actions|];
    if n == 0 {
      run', actions' := run, actions;
      assert FreedBelow(s, u, 0) == s;
    } else {
      run', actions' := ReleasesAreLocal(fulls, unique, run, actions, u, n - 1);
      FreeOne(fulls, s, u, n - 1);
      if s[n - 1].unique == u {
        OneMore(fulls, unique, run', actions', Free(n - 1), FreedBelow(s, u, n));
        run', actions' := run' + [FreedBelow(s, u, n)], actions' + [Free(n - 1)];
      }
    }
  }

  /** Whatever state the collective releases lead to, local ones lead to it as well, and in no fewer steps; so
      the lists agree here too, and the bound on runs holds. */
  lemma {:induction false} SyncRunIsRun(fulls: seq<string>, unique: seq<int>, run: seq<State>,
      actions: seq<SyncAction>, i: nat)
    returns (run': seq<State>, actions': seq<Action>)
    requires IsSyncRun(fulls, unique, run, actions) && i <= |actions|
    ensures IsRun(fulls, unique, run', actions') && run'[|actions'|] == run[i] && i <= |actions'|
    decreases i
  {
    if i == 0 {
      run', actions' := [run[0]], [];
    } else {
      run', actions' := SyncRunIsRun(fulls, unique, run, actions, i - 1);
      assert SyncStepAt(fulls, run, actions, i - 1);
      match actions[i - 1]
      case Round(a) =>
        OneMore(fulls, unique, run', actions', a, run[i]);
        run', actions' := run' + [run[i]], actions' + [a];
      case FreeGroup(u) =>
        run', actions' := ReleasesAreLocal(fulls, unique, run', actions', u, |fulls|);
    }
  }

  // ---------------------------------------------------------------- matching, releases included

  /** The ranks of one group are at the same call. */
  ghost predicate Lockstep(s: State) {
    forall q: nat, r: nat :: q < |s| && r < |s| && s[q].unique == s[r].unique ==> SamePc(s, q, r)
  }

  predicate SamePc(s: State, q: nat, r: nat) {
    q < |s| && r < |s| && s[q].pc == s[r].pc
  }

  ghost predicate SyncInv(fulls: seq<string>, unique: seq<int>, s: State) {
    Inv(fulls, unique, s) && Lockstep(s)
  }

  /** Ranks that were told the same move alike. */
  lemma MoveAlike(fulls: seq<string>, s: State, a: SyncAction, t: State, q: nat, r: nat)
    requires SyncStep(fulls, s, a, t) && q < |s| && r < |s| && s[q].unique == s[r].unique && SamePc(s, q, r)
    ensures SamePc(t, q, r) && t[q].unique == s[q].unique && t[r].unique == s[r].unique
  {
    if a.Round? {
      assert Moved(fulls, s, a.a, q, t[q]) && Moved(fulls, s, a.a, r, t[r]);
    }
  }

  lemma StepKeepsLockstep(fulls: seq<string>, s: State, a: SyncAction, t: State)
    requires SyncStep(fulls, s, a, t) && Lockstep(s)
    requires forall r: nat :: r < |s| ==> t[r].unique == s[r].unique
    ensures Lockstep(t)
  {
    forall q: nat, r: nat | q < |t| && r < |t| && t[q].unique == t[r].unique ensures SamePc(t, q, r) {
      assert SamePc(s, q, r);
      MoveAlike(fulls, s, a, t, q, r);
    }
  }

  lemma SyncKeeps(fulls: seq<string>, unique: seq<int>, run: seq<State>, actions: seq<SyncAction>, i: nat)
    requires Hostnames(fulls) && IsElection(fulls, unique) && IsSyncRun(fulls, unique, run, actions) && i <= |actions|
    ensures Inv(fulls, unique, run[i])
  {
    var run', actions' := SyncRunIsRun(fulls, unique, run, actions, i);
    RunKeeps(fulls, unique, run', actions', |actions'|);
  }

  lemma {:induction false} RunKeepsSyncInv(fulls: seq<string>, unique: seq<int>, run: seq<State>,
      actions: seq<SyncAction>, i: nat)
    requires Hostnames(fulls) && IsElection(fulls, unique) && IsSyncRun(fulls, unique, run, actions) && i <= |actions|
    ensures SyncInv(fulls, unique, run[i])
    decreases i
  {
    SyncKeeps(fulls, unique, run, actions, i);
    if i > 0 {
      RunKeepsSyncInv(fulls, unique, run, actions, i - 1);
      assert SyncStepAt(fulls, run, actions, i - 1);
      SameUniques(fulls, unique, run[i - 1], run[i]);
      StepKeepsLockstep(fulls, run[i - 1], actions[i - 1], run[i]);
    }
  }

  lemma SameUniques(fulls: seq<string>, unique: seq<int>, s: State, t: State)
    requires Inv(fulls, unique, s) && Inv(fulls, unique, t)
    ensures |s| == |t| && forall r: nat :: r < |s| ==> t[r].unique == s[r].unique == unique[r]
  {
    forall r: nat | r < |s| ensures t[r].unique == s[r].unique == unique[r] {
      assert ProcOk(fulls, unique, s[r], r) && ProcOk(fulls, unique, t[r], r);
    }
  }

  /** The communicator of a call: that of a group, or that of all ranks. */
  datatype Comm = Group(u: int) | World

  /** The next call of a rank, with its communicator. */
  function NextCall(p: Proc): Option<(Pc, Comm)> {
    match p.pc
    case AtMaxLen | AtGather | AtFree => Some((p.pc, Group(p.unique)))
    case AtSplit | AtBcastLen | AtBcastNum | AtBcastList => Some((p.pc, World))
    case Done => None
  }

  /** Whatever a rank calls next on the communicator of its group, all its members call next; and two ranks
      whose next calls are both on the communicator of all ranks are at the same one. */
  lemma SyncCallsMatch(fulls: seq<string>, unique: seq<int>, run: seq<State>, actions: seq<SyncAction>, i: nat,
      q: nat, r: nat)
    requires Hostnames(fulls) && IsElection(fulls, unique) && IsSyncRun(fulls, unique, run, actions) && i <= |actions|
    requires q < |fulls| && r < |fulls| && |run[i]| == |fulls|
    ensures unique[q] == unique[r] ==> NextCall(run[i][q]) == NextCall(run[i][r])
    ensures NextCall(run[i][q]).Some? && NextCall(run[i][r]).Some?
            && NextCall(run[i][q]).value.1 == NextCall(run[i][r]).value.1 ==>
              NextCall(run[i][q]) == NextCall(run[i][r])
  {
    var s := run[i];
    RunKeepsSyncInv(fulls, unique, run, actions, i);
    SameUniques(fulls, unique, s, s);
    assert s[q].unique == s[r].unique ==> SamePc(s, q, r);
    assert Abreast(s, q, r);
  }

  // ---------------------------------------------------------------- the calls made

  /** What rank r calls in a step: the call it was at, if it has moved. */
  function Call(p: Proc, p': Proc): seq<(Pc, Comm)> {
    if p'.pc != p.pc && NextCall(p).Some? then [NextCall(p).value] else []
  }

  /** The calls that rank r has made, releases included, in order. */
  function Calls(run: seq<State>, i: nat, r: nat): seq<(Pc, Comm)>
    requires i < |run|
  {
    if i == 0 || r >= |run[i - 1]| || r >= |run[i]| then [] else Calls(run, i - 1, r) + Call(run[i - 1][r], run[i][r])
  }

  /** The part of a sequence of calls that is on one communicator. */
  function On(calls: seq<(Pc, Comm)>, c: Comm): seq<(Pc, Comm)> {
    if calls == [] then []
    else On(calls[..|calls| - 1], c) + if calls[|calls| - 1].1 == c then [calls[|calls| - 1]] else []
  }

  lemma OnMore(calls: seq<(Pc, Comm)>, more: seq<(Pc, Comm)>, c: Comm)
    requires |more| <= 1
    ensures On(calls + more, c) == On(calls, c) + On(more, c)
  {
    if more == [] {
      assert calls + more == calls;
    } else {
      assert (calls + more)[..|calls + more| - 1] == calls && more[..0] == [];
      assert On(more[..0], c) == [];
    }
  }

  lemma GroupCallsAlike(fulls: seq<string>, unique: seq<int>, s: State, t: State, q: nat, r: nat)
    requires SyncInv(fulls, unique, s) && SyncInv(fulls, unique, t) && q < |s| && r < |s| && unique[q] == unique[r]
    ensures Call(s[q], t[q]) == Call(s[r], t[r])
  {
    SameUniques(fulls, unique, s, t);
    assert SamePc(s, q, r) && SamePc(t, q, r);
  }

  /** In one step ranks of one group call the same, and all ranks call the same on the communicator of all. */
  lemma CallAlike(fulls: seq<string>, unique: seq<int>, s: State, a: SyncAction, t: State, q: nat, r: nat)
    requires SyncInv(fulls, unique, s) && SyncInv(fulls, unique, t) && SyncStep(fulls, s, a, t) && q < |s| && r < |s|
    ensures unique[q] == unique[r] ==> Call(s[q], t[q]) == Call(s[r], t[r])
    ensures On(Call(s[q], t[q]), World) == On(Call(s[r], t[r]), World)
  {
    if unique[q] == unique[r] {
      GroupCallsAlike(fulls, unique, s, t, q, r);
    }
    OnWorld(fulls, s, a, t, q);
    OnWorld(fulls, s, a, t, r);
  }

  /** A call on the communicator of all ranks is one of all ranks. */
  lemma OnWorld(fulls: seq<string>, s: State, a: SyncAction, t: State, r: nat)
    requires SyncStep(fulls, s, a, t) && r < |s|
    ensures On(Call(s[r], t[r]), World)
         == match a
            case Round(Split) => [(AtSplit, World)]
            case Round(BcastLen) => [(AtBcastLen, World)]
            case Round(BcastNum) => [(AtBcastNum, World)]
            case Round(BcastList) => [(AtBcastList, World)]
            case _ => []
  {
    if a.Round? {
      assert Moved(fulls, s, a.a, r, t[r]);
    }
    var calls := Call(s[r], t[r]);
    assert calls != [] ==> calls[..0] == [] && On(calls[..0], World) == [];
  }

  /** Ranks of one group have made the same calls in the same order, releases included, and all ranks the same
      ones on the communicator of all ranks. */
  lemma {:induction false} SameCalls(fulls: seq<string>, unique: seq<int>, run: seq<State>, actions: seq<SyncAction>,
      i: nat, q: nat, r: nat)
    requires Hostnames(fulls) && IsElection(fulls, unique) && IsSyncRun(fulls, unique, run, actions) && i <= |actions|
    requires q < |fulls| && r < |fulls|
    ensures unique[q] == unique[r] ==> Calls(run, i, q) == Calls(run, i, r)
    ensures On(Calls(run, i, q), World) == On(Calls(run, i, r), World)
    decreases i
  {
    if i > 0 {
      SameCalls(fulls, unique, run, actions, i - 1, q, r);
      RunKeepsSyncInv(fulls, unique, run, actions, i - 1);
      RunKeepsSyncInv(fulls, unique, run, actions, i);
      assert SyncStepAt(fulls, run, actions, i - 1);
      CallAlike(fulls, unique, run[i - 1], actions[i - 1], run[i], q, r);
      OnMore(Calls(run, i - 1, q), Call(run[i - 1][q], run[i][q]), World);
      OnMore(Calls(run, i - 1, r), Call(run[i - 1][r], run[i][r]), World);
    }
  }

  // ---------------------------------------------------------------- progress

  /** No deadlock: until all ranks are done some call can take effect. */
  lemma SyncStepIsPossible(fulls: seq<string>, unique: seq<int>, run: seq<State>, actions: seq<SyncAction>, i: nat)
    returns (a: SyncAction)
    requires Hostnames(fulls) && IsElection(fulls, unique) && IsSyncRun(fulls, unique, run, actions) && i <= |actions|
    requires !AllDone(run[i])
    ensures SyncEnabled(run[i], a)
  {
    var s := run[i];
    RunKeepsSyncInv(fulls, unique, run, actions, i);
    assert First(fulls, 0);
    if q: nat :| q < |s| && s[q].pc == AtFree {
      a := FreeGroup(s[q].unique);
      assert InGroup(s, s[q].unique, q);
      forall r: nat | InGroup(s, s[q].unique, r) ensures s[r].pc == AtFree && s[r].hostcomm.Some? {
        assert SamePc(s, q, r) && ProcOk(fulls, unique, s[r], r);
      }
    } else {
      var b := NextTogether(fulls, unique, s);
      a := Round(b);
    }
  }

  /** The bound of the local runs holds as well. */
  lemma SyncRunEnds(fulls: seq<string>, unique: seq<int>, run: seq<State>, actions: seq<SyncAction>)
    requires IsSyncRun(fulls, unique, run, actions)
    ensures |actions| <= 7 * |fulls|
  {
    var run', actions' := SyncRunIsRun(fulls, unique, run, actions, |actions|);
    RunEnds(fulls, unique, run', actions', |actions'|);
  }
}
