/** get_unique_host of src/adksys_mpi.c as a protocol: every rank splits its communicator by a salted
    hash of its host name until all names in it are equal, and the lowest rank is elected. The model
    is a state machine over all ranks. A collective takes effect once every member of the
    communicator has reached it; a communicator is freed by each of its members on its own. */
module MpiElection {
  import opened AdiakTypes

  // ---------------------------------------------------------------- the state

  /** The host names of the ranks, and the color that a name gets in a round. Nothing is assumed
      about colors, so that any collisions are covered. */
  datatype World = World(names: seq<string>, color: (string, nat) -> int)

  /** A communicator by how it was made: [] is the base communicator, and splitting c makes c + [k]
      for each color k. A communicator is split at most once. */
  type CommId = seq<int>

  /** Where a rank is in get_unique_host: before the split, the release of the old communicator, the
      broadcast, the reduction, the release of the new communicator, or past the return. */
  datatype Pc = AtSplit | AtFreeOld | AtBcast | AtReduce | AtFreeNew | Returned

  datatype Proc = Proc(
    pc: Pc,
    globalRank: int,
    index: nat,
    setOldcomm: bool,
    oldcomm: Option<CommId>,
    newcomm: Option<CommId>,
    oname: string,
    result: int)

  /** members has the ranks of every communicator made so far; freed counts the releases. */
  datatype State = State(procs: seq<Proc>, members: map<CommId, set<nat>>, freed: multiset<(nat, CommId)>)

  datatype Action = Split(c: CommId) | FreeOld(r: nat) | Bcast(c: CommId) | Reduce(c: CommId) | Return(r: nat)

  ghost function Ranks(w: World): set<nat> {
    set r | 0 <= r < |w.names| && IsRank(w, r)
  }

  predicate IsRank(w: World, r: nat) {
    r < |w.names|
  }

  ghost function Init(w: World): State {
    State(seq(|w.names|, r => Proc(AtSplit, r, 0, false, Some([]), None, "", -1)), map[[] := Ranks(w)], multiset{})
  }

  /** Every member of c is at pc, and c is the communicator it is there for. */
  ghost predicate AllAt(s: State, c: CommId, pc: Pc) {
    && c in s.members && s.members[c] != {}
    && forall r :: r in s.members[c] ==>
         r < |s.procs| && s.procs[r].pc == pc &&
           (if pc.AtSplit? then s.procs[r].oldcomm else s.procs[r].newcomm) == Some(c)
  }

  ghost predicate Enabled(s: State, a: Action) {
    match a
    case Split(c) => AllAt(s, c, AtSplit)
    case Bcast(c) => AllAt(s, c, AtBcast)
    case Reduce(c) => AllAt(s, c, AtReduce)
    case FreeOld(r) => r < |s.procs| && s.procs[r].pc.AtFreeOld? && s.procs[r].oldcomm.Some?
    case Return(r) =>
      && r < |s.procs| && s.procs[r].pc.AtFreeNew?
      && s.procs[r].newcomm.Some? && s.procs[r].newcomm.value in s.members
  }

  /** MPI_Comm_split orders a new communicator by the key, here the global rank; rank 0 of it is the
      member with the lowest key. */
  ghost predicate IsRoot(s: State, ms: set<nat>, m: nat) {
    m in ms && m < |s.procs| && forall r :: r in ms ==> r < |s.procs| && s.procs[m].globalRank <= s.procs[r].globalRank
  }

  function NewId(w: World, s: State, c: CommId, r: nat): CommId
    requires r < |w.names| == |s.procs|
  {
    c + [w.color(w.names[r], s.procs[r].index)]
  }

  function SplitProc(p: Proc, id: CommId): Proc {
    p.(pc := if p.setOldcomm then AtFreeOld else AtBcast, index := p.index + 1, newcomm := Some(id))
  }

  /** The members of c whose color leads to id. */
  ghost function Group(w: World, s: State, c: CommId, id: CommId): set<nat>
    requires |w.names| == |s.procs| && AllAt(s, c, AtSplit)
  {
    set r | r in s.members[c] && NewId(w, s, c, r) == id
  }

  ghost function AfterSplit(w: World, s: State, c: CommId): State
    requires |w.names| == |s.procs| && AllAt(s, c, AtSplit)
  {
    var ids := set r | r in s.members[c] :: NewId(w, s, c, r);
    State(
      seq(|w.names|, r requires 0 <= r < |w.names| =>
        if r in s.members[c] then SplitProc(s.procs[r], NewId(w, s, c, r)) else s.procs[r]),
      s.members + map id | id in ids :: Group(w, s, c, id),
      s.freed)
  }

  /** The root's name reaches every member. */
  ghost function AfterBcast(w: World, s: State, c: CommId, root: nat): State
    requires |w.names| == |s.procs| && AllAt(s, c, AtBcast) && root < |w.names|
  {
    s.(procs := seq(|w.names|, r requires 0 <= r < |w.names| =>
      if r in s.members[c] then s.procs[r].(pc := AtReduce, oname := w.names[root]) else s.procs[r]))
  }

  ghost predicate AllMatch(w: World, s: State, c: CommId)
    requires |w.names| == |s.procs| && AllAt(s, c, AtReduce)
  {
    forall r :: r in s.members[c] ==> w.names[r] == s.procs[r].oname
  }

  /** The logical and of all comparisons: either all members leave the loop or all go round again. */
  ghost function AfterReduce(w: World, s: State, c: CommId): State
    requires |w.names| == |s.procs| && AllAt(s, c, AtReduce)
  {
    s.(procs := seq(|w.names|, r requires 0 <= r < |w.names| =>
      if r !in s.members[c] then s.procs[r]
      else if AllMatch(w, s, c) then s.procs[r].(pc := AtFreeNew)
      else s.procs[r].(pc := AtSplit, setOldcomm := true, oldcomm := Some(c))))
  }

  ghost function AfterFreeOld(s: State, r: nat): State
    requires Enabled(s, FreeOld(r))
  {
    var p := s.procs[r];
    s.(procs := s.procs[r := p.(pc := AtBcast, oldcomm := None)], freed := s.freed + multiset{(r, p.oldcomm.value)})
  }

  /** The code after the loop: both communicators are freed, unless they are the base communicator or
      have been freed before, and rank 0 of the last one is elected. */
  ghost function AfterReturn(s: State, r: nat, elected: bool): State
    requires Enabled(s, Return(r))
  {
    var p := s.procs[r];
    var olds := if p.oldcomm.Some? && p.oldcomm.value != [] then multiset{(r, p.oldcomm.value)} else multiset{};
    var news := if p.newcomm.value != [] then multiset{(r, p.newcomm.value)} else multiset{};
    s.(procs := s.procs[r := p.(pc := Returned, result := if elected then 1 else 0)], freed := s.freed + olds + news)
  }

  /** t is what action a makes of s. */
  ghost predicate Step(w: World, s: State, a: Action, t: State) {
    |w.names| == |s.procs| && Enabled(s, a) &&
    match a
    case Split(c) => t == AfterSplit(w, s, c)
    case FreeOld(r) => t == AfterFreeOld(s, r)
    case Bcast(c) => exists root: nat ::
      IsRoot(s, s.members[c], root) && root < |w.names| && t == AfterBcast(w, s, c, root)
    case Reduce(c) => t == AfterReduce(w, s, c)
    case Return(r) => t == AfterReturn(s, r, IsRoot(s, s.members[s.procs[r].newcomm.value], r))
  }

  /** The states of a run, from the initial one on, with the actions between them. */
  ghost predicate IsRun(w: World, run: seq<State>, actions: seq<Action>) {
    && |run| == |actions| + 1 && run[0] == Init(w)
    && forall i :: 0 <= i < |actions| ==> Step(w, run[i], actions[i], run[i + 1])
  }
}
