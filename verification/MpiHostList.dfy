/** gethostlist of src/adksys_mpi.c, after the election: the elected ranks gather their host names at
    rank 0, which broadcasts the list to all. Again a state machine over all ranks. */
module MpiHostList {
  import opened AdiakTypes
  import E = MpiElection
  import R = ElectionRuns

  const MAX_HOSTNAME_LEN := 1025

  /** What gethostname gives: it fits into the buffer with its terminator. */
  predicate IsHostname(full: string) {
    |full| < MAX_HOSTNAME_LEN && forall i :: 0 <= i < |full| ==> full[i] != NUL
  }

  /** The name buffer of a rank: zeroed, filled, and cut at the first dot by putting a terminator there;
      what comes after the dot stays in the buffer. */
  function Buffer(full: string): (buffer: seq<char>)
    requires IsHostname(full)
  {
    var d := FirstDot(full, 0);
    var padded := full + seq(MAX_HOSTNAME_LEN - |full|, _ => NUL);
    if d < |full| then padded[d := NUL] else padded
  }

  function FirstDot(full: string, i: nat): (d: nat)
    requires i <= |full|
    ensures i <= d <= |full| && (d < |full| ==> full[d] == '.') && forall k :: i <= k < d ==> full[k] != '.'
    decreases |full| - i
  {
    if i == |full| || full[i] == '.' then i else FirstDot(full, i + 1)
  }

  /** The host name that the election compares. */
  function ShortName(full: string): string {
    full[..FirstDot(full, 0)]
  }

  /** The C string that starts at a place in memory. */
  function StringAt(mem: seq<char>, at: nat): string
    decreases |mem| - at
  {
    if at >= |mem| || mem[at] == NUL then "" else [mem[at]] + StringAt(mem, at + 1)
  }

  // ---------------------------------------------------------------- the state

  datatype Pc = AtSplit | AtMaxLen | AtGather | AtFree | AtBcastLen | AtBcastNum | AtBcastList | Done

  /** The locals of a rank; hostcomm lists the members of the communicator in its order. */
  datatype Proc = Proc(
    pc: Pc, unique: int, hostcomm: Option<seq<nat>>, numHosts: int, maxLen: int, hostlist: Option<seq<char>>,
      freed: nat)

  datatype Action = Split | MaxLen | Gather | Free(r: nat) | BcastLen | BcastNum | BcastList

  type State = seq<Proc>

  /** unique is what the election has returned to each rank; the other locals hold anything yet. */
  ghost predicate IsInit(fulls: seq<string>, unique: seq<int>, s: State) {
    && |s| == |fulls| == |unique|
    && forall r :: 0 <= r < |s| ==>
         s[r].pc == AtSplit && s[r].unique == unique[r] && s[r].hostcomm == None && s[r].hostlist == None &&
           s[r].freed == 0
  }

  /** The ranks below n that were told u, in the order of the key of the split, the rank. */
  function RanksWith(unique: seq<int>, u: int, n: nat): (rs: seq<nat>)
    requires n <= |unique|
    ensures forall i :: 0 <= i < |rs| ==> rs[i] < n && unique[rs[i]] == u
  {
    if n == 0 then []
    else RanksWith(unique, u, n - 1) + if unique[n - 1] == u then [n - 1] else []
  }

  function Uniques(s: State): seq<int> {
    seq(|s|, r requires 0 <= r < |s| => s[r].unique)
  }

  /** All ranks are at pc. */
  ghost predicate AllAt(s: State, pc: Pc) {
    |s| > 0 && forall r :: 0 <= r < |s| ==> s[r].pc == pc
  }

  /** All elected ranks, and there are some, are at pc. */
  ghost predicate ElectedAt(s: State, pc: Pc) {
    && (exists r :: 0 <= r < |s| && s[r].unique == 1)
    && forall r :: 0 <= r < |s| && s[r].unique == 1 ==>
       s[r].pc == pc && s[r].hostcomm == Some(RanksWith(Uniques(s), 1, |s|))
  }

  /** Global rank 0 is rank 0 of the communicator. */
  predicate ZeroLeads(ranks: seq<nat>) {
    |ranks| > 0 && ranks[0] == 0
  }

  /** A step that only some ranks take needs only them. Only global rank 0 makes room for the list, so
      that it has to be the root of the gather, and to hold the list when it broadcasts it. */
  ghost predicate Enabled(s: State, a: Action) {
    match a
    case Split => AllAt(s, AtSplit)
    case MaxLen => ElectedAt(s, AtMaxLen)
    case Gather => ElectedAt(s, AtGather) && ZeroLeads(RanksWith(Uniques(s), 1, |s|))
    case Free(r) => r < |s| && s[r].pc == AtFree && s[r].hostcomm.Some?
    case BcastLen => AllAt(s, AtBcastLen)
    case BcastNum => AllAt(s, AtBcastNum)
    case BcastList => AllAt(s, AtBcastList) && s[0].hostlist.Some?
  }

  /** The longest name among the given ranks. */
  function Longest(fulls: seq<string>, ranks: seq<nat>): nat
    requires forall i :: 0 <= i < |ranks| ==> ranks[i] < |fulls|
  {
    if ranks == [] then 0
    else
      var k, rest := |ShortName(fulls[ranks[|ranks| - 1]])|, Longest(fulls, ranks[..|ranks| - 1]);
      if k > rest then k else rest
  }

  /** len characters of each member's buffer, in the order of the communicator. */
  function Gathered(fulls: seq<string>, ranks: seq<nat>, len: nat): seq<char>
    requires forall i :: 0 <= i < |fulls| ==> IsHostname(fulls[i])
    requires len <= MAX_HOSTNAME_LEN && forall i :: 0 <= i < |ranks| ==> ranks[i] < |fulls|
  {
    if ranks == [] then []
    else Gathered(fulls, ranks[..|ranks| - 1], len) + Buffer(fulls[ranks[|ranks| - 1]])[..len]
  }

  ghost predicate Hostnames(fulls: seq<string>) {
    forall i :: 0 <= i < |fulls| ==> IsHostname(fulls[i])
  }

  /** The elected ranks, the length of an entry, and the list. */
  ghost function Elected(unique: seq<int>): (rs: seq<nat>)
    ensures forall i :: 0 <= i < |rs| ==> rs[i] < |unique|
  {
    RanksWith(unique, 1, |unique|)
  }

  /** MPI_Gather puts the names at rank 0 of the communicator. */
  ghost predicate GatherStep(fulls: seq<string>, p: Proc, r: nat, p': Proc)
    requires Hostnames(fulls)
  {
    && p.hostcomm.Some? && |p.hostcomm.value| > 0 && 0 <= p.maxLen <= MAX_HOSTNAME_LEN
    && (forall i :: 0 <= i < |p.hostcomm.value| ==> p.hostcomm.value[i] < |fulls|)
    && p' == p.(pc := AtFree,
                hostlist := if r == p.hostcomm.value[0] then Some(Gathered(fulls, p.hostcomm.value, p.maxLen))
                  else p.hostlist)
  }

  /** p' is what action a makes of the locals p of rank r. */
  ghost predicate Moved(fulls: seq<string>, s: State, a: Action, r: nat, p': Proc)
    requires Hostnames(fulls) && r < |s| == |fulls| && Enabled(s, a)
  {
    var p := s[r];
    match a
    case Split => p' ==
      p.(pc := if p.unique == 1 then AtMaxLen else AtFree, hostcomm := Some(RanksWith(Uniques(s), p.unique, |s|)))
    case MaxLen =>
      if p.unique != 1 then p' == p
      else p' == p.(pc := AtGather, numHosts := |p.hostcomm.value|, maxLen := Longest(fulls, Elected(Uniques(s))) + 1)
    case Gather => if p.unique != 1 then p' == p else GatherStep(fulls, p, r, p')
    case Free(q) => if q != r then p' == p else p' == p.(pc := AtBcastLen, hostcomm := None, freed := p.freed + 1)
    case BcastLen => p' == p.(pc := AtBcastNum, maxLen := s[0].maxLen)
    case BcastNum => p' == p.(pc := AtBcastList, numHosts := s[0].numHosts)
    case BcastList => p' == p.(pc := Done, hostlist := s[0].hostlist)
  }

  ghost predicate Step(fulls: seq<string>, s: State, a: Action, t: State) {
    && Hostnames(fulls) && |s| == |t| == |fulls| && Enabled(s, a)
    && forall r :: 0 <= r < |s| ==> Moved(fulls, s, a, r, t[r])
  }

  ghost predicate IsRun(fulls: seq<string>, unique: seq<int>, run: seq<State>, actions: seq<Action>) {
    && |run| == |actions| + 1 && IsInit(fulls, unique, run[0])
    && forall i :: 0 <= i < |actions| ==> Step(fulls, run[i], actions[i], run[i + 1])
  }

  // ---------------------------------------------------------------- the invariant

  /** The result of the election: 1 for the lowest rank with a name, 0 for the others. */
  ghost predicate IsElection(fulls: seq<string>, unique: seq<int>) {
    && |unique| == |fulls|
    && forall r: nat :: r < |fulls| ==> unique[r] == if First(fulls, r) then 1 else 0
  }

  ghost predicate First(fulls: seq<string>, r: nat)
    requires r < |fulls|
  {
    forall q :: 0 <= q < r ==> ShortName(fulls[q]) != ShortName(fulls[r])
  }

  /** The length of an entry and the list that all ranks get. */
  ghost function EntryLength(fulls: seq<string>, unique: seq<int>): nat
    requires |unique| == |fulls|
  {
    Longest(fulls, Elected(unique)) + 1
  }

  ghost function HostList(fulls: seq<string>, unique: seq<int>): seq<char>
    requires |unique| == |fulls| && Hostnames(fulls) && EntryLength(fulls, unique) <= MAX_HOSTNAME_LEN
  {
    Gathered(fulls, Elected(unique), EntryLength(fulls, unique))
  }

  /** What a rank knows at each point. */
  ghost predicate ProcOk(fulls: seq<string>, unique: seq<int>, p: Proc, r: nat)
    requires |unique| == |fulls| && Hostnames(fulls) && EntryLength(fulls, unique) <= MAX_HOSTNAME_LEN && r < |fulls|
  {
    && p.unique == unique[r]
    && (p.hostcomm == if p.pc in {AtMaxLen, AtGather, AtFree} then Some(RanksWith(unique, p.unique, |unique|))
       else None)
    && p.freed == (if Level(p.pc) < 3 || p.pc == AtFree then 0 else 1)
    && (p.pc in {AtMaxLen, AtGather} ==> p.unique == 1)
    && (p.unique == 1 && Level(p.pc) >= 2 ==> KnowsSizes(fulls, unique, p))
    && (Level(p.pc) >= 4 ==> p.maxLen == EntryLength(fulls, unique))
    && (Level(p.pc) >= 5 ==> p.numHosts == |Elected(unique)|)
    && (p.hostlist == if p.pc == Done || (r == 0 && Level(p.pc) >= 3) then Some(HostList(fulls, unique)) else None)
  }

  ghost predicate KnowsSizes(fulls: seq<string>, unique: seq<int>, p: Proc)
    requires |unique| == |fulls|
  {
    p.maxLen == EntryLength(fulls, unique) && p.numHosts == |Elected(unique)|
  }

  function Level(pc: Pc): nat {
    match pc
    case AtSplit => 0
    case AtMaxLen => 1
    case AtGather => 2
    case AtFree | AtBcastLen => 3
    case AtBcastNum => 4
    case AtBcastList => 5
    case Done => 6
  }

  /** Ranks of one communicator are equally far. */
  ghost predicate Abreast(s: State, q: nat, r: nat)
    requires q < |s| && r < |s|
  {
    var k, l := Level(s[q].pc), Level(s[r].pc);
    k == l || (1 <= k <= 3 && 1 <= l <= 3 && (s[q].unique == 1) != (s[r].unique == 1))
  }

  ghost predicate Inv(fulls: seq<string>, unique: seq<int>, s: State) {
    && |s| == |fulls| == |unique| && Hostnames(fulls) && EntryLength(fulls, unique) <= MAX_HOSTNAME_LEN
    && Uniques(s) == unique
    && (forall r :: 0 <= r < |s| ==> ProcOk(fulls, unique, s[r], r))
    && (forall q, r :: 0 <= q < |s| && 0 <= r < |s| ==> Abreast(s, q, r))
  }

  // ---------------------------------------------------------------- every step keeps it

  lemma {:induction false} RankZeroIsFirst(unique: seq<int>, n: nat)
    requires 0 < n <= |unique| && unique[0] == 1
    ensures RanksWith(unique, 1, n) != [] && RanksWith(unique, 1, n)[0] == 0
  {
    if n > 1 {
      RankZeroIsFirst(unique, n - 1);
    }
  }

  /** MPI_Allreduce with MPI_MAX: no name is longer, and one is as long. */
  lemma {:induction false} LongestIsMax(fulls: seq<string>, ranks: seq<nat>)
    requires ranks != [] && forall i :: 0 <= i < |ranks| ==> ranks[i] < |fulls|
    ensures forall i :: 0 <= i < |ranks| ==> |ShortName(fulls[ranks[i]])| <= Longest(fulls, ranks)
    ensures exists i :: 0 <= i < |ranks| && |ShortName(fulls[ranks[i]])| == Longest(fulls, ranks)
  {
    var last, before := |ranks| - 1, ranks[..|ranks| - 1];
    if before != [] {
      LongestIsMax(fulls, before);
      var i :| 0 <= i < |before| && |ShortName(fulls[before[i]])| == Longest(fulls, before);
      assert before[i] == ranks[i];
    }
    assert |ShortName(fulls[ranks[last]])| <= Longest(fulls, ranks);
  }

  lemma {:induction false} LongestFits(fulls: seq<string>, ranks: seq<nat>)
    requires Hostnames(fulls) && forall i :: 0 <= i < |ranks| ==> ranks[i] < |fulls|
    ensures Longest(fulls, ranks) < MAX_HOSTNAME_LEN
    ensures forall i :: 0 <= i < |ranks| ==> |ShortName(fulls[ranks[i]])| <= Longest(fulls, ranks)
  {
    if ranks != [] {
      LongestFits(fulls, ranks[..|ranks| - 1]);
      assert IsHostname(fulls[ranks[|ranks| - 1]]);
    }
  }

  lemma InitOk(fulls: seq<string>, unique: seq<int>, s: State)
    requires Hostnames(fulls) && IsElection(fulls, unique) && IsInit(fulls, unique, s)
    ensures Inv(fulls, unique, s)
  {
    LongestFits(fulls, Elected(unique));
  }

  lemma LocalMoveKeeps(fulls: seq<string>, unique: seq<int>, s: State, a: Action, r: nat, p': Proc)
    requires Inv(fulls, unique, s) && Enabled(s, a) && r < |s| && Moved(fulls, s, a, r, p')
    requires unique[0] == 1 && (a.Split? || a.Free? || a.MaxLen?)
    ensures ProcOk(fulls, unique, p', r)
  {
    assert ProcOk(fulls, unique, s[r], r);
  }

  lemma GatherKeeps(fulls: seq<string>, unique: seq<int>, s: State, a: Action, r: nat, p': Proc)
    requires Inv(fulls, unique, s) && Enabled(s, a) && r < |s| && Moved(fulls, s, a, r, p')
    requires unique[0] == 1 && (a.Gather?)
    ensures ProcOk(fulls, unique, p', r)
  {
    assert ProcOk(fulls, unique, s[r], r);
    RankZeroIsFirst(unique, |unique|);
  }

  lemma BcastKeeps(fulls: seq<string>, unique: seq<int>, s: State, a: Action, r: nat, p': Proc)
    requires Inv(fulls, unique, s) && Enabled(s, a) && r < |s| && Moved(fulls, s, a, r, p')
    requires unique[0] == 1 && (a.BcastLen? || a.BcastNum? || a.BcastList?)
    ensures ProcOk(fulls, unique, p', r)
  {
    assert ProcOk(fulls, unique, s[r], r) && ProcOk(fulls, unique, s[0], 0);
  }

  lemma MoveKeepsProc(fulls: seq<string>, unique: seq<int>, s: State, a: Action, r: nat, p': Proc)
    requires Inv(fulls, unique, s) && Enabled(s, a) && r < |s| && Moved(fulls, s, a, r, p')
    requires unique[0] == 1
    ensures ProcOk(fulls, unique, p', r)
  {
    if a.Gather? {
      GatherKeeps(fulls, unique, s, a, r, p');
    } else if a.Split? || a.Free? || a.MaxLen? {
      LocalMoveKeeps(fulls, unique, s, a, r, p');
    } else {
      BcastKeeps(fulls, unique, s, a, r, p');
    }
  }

  lemma PairKeeps(fulls: seq<string>, unique: seq<int>, s: State, a: Action, t: State, q: nat, r: nat)
    requires |s| == |t| == |fulls| == |unique| && Hostnames(fulls) && EntryLength(fulls, unique) <= MAX_HOSTNAME_LEN
    requires q < |s| && r < |s| && Abreast(s, q, r) && ProcOk(fulls, unique, s[q], q) && ProcOk(fulls, unique, s[r], r)
    requires Enabled(s, a) && Moved(fulls, s, a, q, t[q]) && Moved(fulls, s, a, r, t[r])
    ensures Abreast(t, q, r)
  {
  }

  lemma MoveKeepsLevels(fulls: seq<string>, unique: seq<int>, s: State, a: Action, t: State)
    requires Inv(fulls, unique, s) && Step(fulls, s, a, t)
    ensures forall q, r :: 0 <= q < |t| && 0 <= r < |t| ==> Abreast(t, q, r)
  {
    forall q, r | 0 <= q < |t| && 0 <= r < |t| ensures Abreast(t, q, r) {
      PairKeeps(fulls, unique, s, a, t, q, r);
    }
  }

  lemma StepKeeps(fulls: seq<string>, unique: seq<int>, s: State, a: Action, t: State)
    requires Inv(fulls, unique, s) && |s| > 0 && unique[0] == 1 && Step(fulls, s, a, t)
    ensures Inv(fulls, unique, t)
  {
    MoveKeepsLevels(fulls, unique, s, a, t);
    forall r | 0 <= r < |t| ensures ProcOk(fulls, unique, t[r], r) && t[r].unique == s[r].unique {
      assert Moved(fulls, s, a, r, t[r]);
      MoveKeepsProc(fulls, unique, s, a, r, t[r]);
    }
  }

  lemma {:induction false} RunKeeps(fulls: seq<string>, unique: seq<int>, run: seq<State>, actions: seq<Action>, i: nat)
    requires Hostnames(fulls) && IsElection(fulls, unique) && IsRun(fulls, unique, run, actions) && i < |run|
    ensures Inv(fulls, unique, run[i])
  {
    if i == 0 {
      InitOk(fulls, unique, run[0]);
    } else {
      RunKeeps(fulls, unique, run, actions, i - 1);
      assert Step(fulls, run[i - 1], actions[i - 1], run[i]);
      if |fulls| > 0 {
        assert First(fulls, 0);
        StepKeeps(fulls, unique, run[i - 1], actions[i - 1], run[i]);
      }
    }
  }

  // ---------------------------------------------------------------- what the list says

  lemma {:induction false} SomeRank(unique: seq<int>, r: nat, n: nat)
    requires r < n <= |unique|
    ensures r in RanksWith(unique, unique[r], n)
  {
    if r < n - 1 {
      SomeRank(unique, r, n - 1);
    }
  }

  lemma {:induction false} RanksAscend(unique: seq<int>, u: int, n: nat, i: nat, j: nat)
    requires n <= |unique| && i < j < |RanksWith(unique, u, n)|
    ensures RanksWith(unique, u, n)[i] < RanksWith(unique, u, n)[j]
  {
    if j < |RanksWith(unique, u, n - 1)| {
      RanksAscend(unique, u, n - 1, i, j);
    }
  }

  /** Memory from at on holds name and a terminator. */
  ghost predicate Holds(mem: seq<char>, at: nat, name: string) {
    && at + |name| < |mem| && mem[at + |name|] == NUL
    && forall k :: at <= k < at + |name| ==> mem[k] == name[k - at] && mem[k] != NUL
  }

  lemma {:induction false} StringAtOf(mem: seq<char>, at: nat, name: string)
    requires Holds(mem, at, name)
    ensures StringAt(mem, at) == name
    decreases |name|
  {
    if name != "" {
      StringAtOf(mem, at + 1, name[1..]);
    }
  }

  lemma {:induction false} StringAtPrefix(a: seq<char>, b: seq<char>, at: nat, end: nat)
    requires at <= end < |a| && a[end] == NUL
    ensures StringAt(a + b, at) == StringAt(a, at)
    decreases end - at
  {
    if at < end {
      StringAtPrefix(a, b, at + 1, end);
    }
  }

  lemma BufferString(full: string)
    requires IsHostname(full)
    ensures |Buffer(full)| == MAX_HOSTNAME_LEN && Holds(Buffer(full), 0, ShortName(full))
  {
  }

  lemma {:induction false} GatheredLength(fulls: seq<string>, ranks: seq<nat>, len: nat)
    requires Hostnames(fulls) && len <= MAX_HOSTNAME_LEN && forall i :: 0 <= i < |ranks| ==> ranks[i] < |fulls|
    ensures |Gathered(fulls, ranks, len)| == |ranks| * len
  {
    if ranks != [] {
      GatheredLength(fulls, ranks[..|ranks| - 1], len);
      assert |ranks| * len == (|ranks| - 1) * len + len;
    }
  }

  /** An entry of the list, read as a C string, is the host name of its rank. */
  lemma {:induction false} EntryIs(fulls: seq<string>, ranks: seq<nat>, len: nat, i: nat)
    requires Hostnames(fulls) && 0 < len <= MAX_HOSTNAME_LEN && forall i :: 0 <= i < |ranks| ==> ranks[i] < |fulls|
    requires i < |ranks| && |ShortName(fulls[ranks[i]])| < len
    ensures StringAt(Gathered(fulls, ranks, len), i * len) == ShortName(fulls[ranks[i]])
    decreases |ranks|
  {
    var most := ranks[..|ranks| - 1];
    var full := fulls[ranks[|ranks| - 1]];
    assert IsHostname(full);
    var front, last := Gathered(fulls, most, len), Buffer(full)[..len];
    GatheredLength(fulls, most, len);
    if i < |most| {
      EntryIs(fulls, most, len, i);
      EntryInFront(fulls, most, len, i, last);
    } else {
      LastEntry(front, full, len);
    }
  }

  lemma LastEntry(front: seq<char>, full: string, len: nat)
    requires IsHostname(full) && |ShortName(full)| < len <= MAX_HOSTNAME_LEN
    ensures StringAt(front + Buffer(full)[..len], |front|) == ShortName(full)
  {
    BufferString(full);
    HoldsAfter(front, Buffer(full), len, ShortName(full));
    StringAtOf(front + Buffer(full)[..len], |front|, ShortName(full));
  }

  lemma HoldsAfter(front: seq<char>, buffer: seq<char>, len: nat, name: string)
    requires |name| < len <= |buffer| && Holds(buffer, 0, name)
    ensures Holds(front + buffer[..len], |front|, name)
  {
    var mem := front + buffer[..len];
    forall k | |front| <= k < |front| + |name| ensures mem[k] == name[k - |front|] && mem[k] != NUL {
      assert mem[k] == buffer[k - |front|];
    }
  }

  /** What follows does not change an entry. */
  lemma {:induction false} EntryInFront(fulls: seq<string>, ranks: seq<nat>, len: nat, i: nat, rest: seq<char>)
    requires Hostnames(fulls) && 0 < len <= MAX_HOSTNAME_LEN && forall i :: 0 <= i < |ranks| ==> ranks[i] < |fulls|
    requires i < |ranks| && |ShortName(fulls[ranks[i]])| < len
    ensures StringAt(Gathered(fulls, ranks, len) + rest, i * len) == StringAt(Gathered(fulls, ranks, len), i * len)
  {
    var end := EntryEnds(fulls, ranks, len, i);
    StringAtPrefix(Gathered(fulls, ranks, len), rest, i * len, end);
  }

  lemma {:induction false} EntryEnds(fulls: seq<string>, ranks: seq<nat>, len: nat, i: nat) returns (end: nat)
    requires Hostnames(fulls) && 0 < len <= MAX_HOSTNAME_LEN && forall i :: 0 <= i < |ranks| ==> ranks[i] < |fulls|
    requires i < |ranks| && |ShortName(fulls[ranks[i]])| < len
    ensures i * len <= end < |Gathered(fulls, ranks, len)| && Gathered(fulls, ranks, len)[end] == NUL
    decreases |ranks|
  {
    var most := ranks[..|ranks| - 1];
    GatheredLength(fulls, most, len);
    if i < |most| {
      end := EntryEnds(fulls, most, len, i);
    } else {
      var full := fulls[ranks[i]];
      BufferString(full);
      end := i * len + |ShortName(full)|;
    }
  }

  /** The elected ranks ascend, have different names, and between them all names. */
  lemma ElectedCover(fulls: seq<string>, unique: seq<int>)
    requires IsElection(fulls, unique)
    ensures var e := Elected(unique);
            && (forall i :: 0 <= i < |e| ==> First(fulls, e[i]))
            && (forall i, j :: 0 <= i < j < |e| ==> e[i] < e[j] && ShortName(fulls[e[i]]) != ShortName(fulls[e[j]]))
            && (forall r :: 0 <= r < |fulls| ==> exists i ::
               0 <= i < |e| && ShortName(fulls[e[i]]) == ShortName(fulls[r]))
  {
    var e := Elected(unique);
    forall i, j | 0 <= i < j < |e| ensures e[i] < e[j] && ShortName(fulls[e[i]]) != ShortName(fulls[e[j]]) {
      RanksAscend(unique, 1, |unique|, i, j);
      assert First(fulls, e[j]);
    }
    forall r | 0 <= r < |fulls| ensures exists i :: 0 <= i < |e| && ShortName(fulls[e[i]]) == ShortName(fulls[r]) {
      var m := FirstWith(fulls, r);
      SomeRank(unique, m, |unique|);
    }
  }

  /** The list has one entry for each of them, and an entry read as a C string is the host name. */
  lemma ListContents(fulls: seq<string>, unique: seq<int>, i: nat)
    requires Hostnames(fulls) && |unique| == |fulls| && i < |Elected(unique)|
    ensures EntryLength(fulls, unique) <= MAX_HOSTNAME_LEN
    ensures |HostList(fulls, unique)| == |Elected(unique)| * EntryLength(fulls, unique)
    ensures StringAt(HostList(fulls, unique), i * EntryLength(fulls, unique)) == ShortName(fulls[Elected(unique)[i]])
  {
    LongestFits(fulls, Elected(unique));
    GatheredLength(fulls, Elected(unique), EntryLength(fulls, unique));
    EntryIs(fulls, Elected(unique), EntryLength(fulls, unique), i);
  }

  lemma {:induction false} FirstWith(fulls: seq<string>, r: nat) returns (m: nat)
    requires r < |fulls|
    ensures m <= r && First(fulls, m) && ShortName(fulls[m]) == ShortName(fulls[r])
  {
    if First(fulls, r) {
      m := r;
    } else {
      var q: nat :| q < r && ShortName(fulls[q]) == ShortName(fulls[r]);
      m := FirstWith(fulls, q);
    }
  }

  /** Every rank that is done has the same count, the same entry length, and the same list, and has
      released the communicator of its group once. */
  lemma ListsAgree(fulls: seq<string>, unique: seq<int>, run: seq<State>, actions: seq<Action>, i: nat, r: nat)
    requires Hostnames(fulls) && IsElection(fulls, unique) && IsRun(fulls, unique, run, actions) && i < |run|
    requires r < |run[i]| && run[i][r].pc == Done
    ensures EntryLength(fulls, unique) <= MAX_HOSTNAME_LEN && run[i][r].hostlist == Some(HostList(fulls, unique))
    ensures run[i][r].numHosts == |Elected(unique)| && run[i][r].maxLen == EntryLength(fulls, unique) &&
        run[i][r].freed == 1
  {
    RunKeeps(fulls, unique, run, actions, i);
  }

  // ---------------------------------------------------------------- progress

  ghost predicate AllDone(s: State) {
    forall r :: 0 <= r < |s| ==> s[r].pc == Done
  }

  /** No deadlock, and no gather into a buffer that is not there. */
  lemma SomeStepIsPossible(fulls: seq<string>, unique: seq<int>, run: seq<State>, actions: seq<Action>, i: nat)
    returns (a: Action)
    requires Hostnames(fulls) && IsElection(fulls, unique) && IsRun(fulls, unique, run, actions) && i < |run|
    requires !AllDone(run[i])
    ensures Enabled(run[i], a)
  {
    var s := run[i];
    RunKeeps(fulls, unique, run, actions, i);
    assert First(fulls, 0);
    if q: nat :| q < |s| && s[q].pc == AtFree {
      assert ProcOk(fulls, unique, s[q], q);
      a := Free(q);
    } else {
      a := NextTogether(fulls, unique, s);
    }
  }

  lemma NextTogether(fulls: seq<string>, unique: seq<int>, s: State) returns (a: Action)
    requires Inv(fulls, unique, s) && |s| > 0 && unique[0] == 1 && !AllDone(s)
    requires forall q :: 0 <= q < |s| ==> s[q].pc != AtFree
    ensures Enabled(s, a)
  {
    var pc := s[0].pc;
    assert s[0].unique == 1 && ProcOk(fulls, unique, s[0], 0);
    forall r | 0 <= r < |s| ensures Abreast(s, 0, r) && ProcOk(fulls, unique, s[r], r) {
    }
    if pc == AtMaxLen || pc == AtGather {
      RankZeroIsFirst(unique, |unique|);
      a := if pc == AtMaxLen then MaxLen else Gather;
    } else {
      a := match pc case AtSplit => Split case AtBcastLen => BcastLen case AtBcastNum => BcastNum case _ => BcastList;
    }
  }

  function StepsLeft(pc: Pc): nat {
    match pc
    case AtSplit => 7
    case AtMaxLen => 6
    case AtGather => 5
    case AtFree => 4
    case AtBcastLen => 3
    case AtBcastNum => 2
    case AtBcastList => 1
    case Done => 0
  }

  function Total(s: State): nat {
    if s == [] then 0 else StepsLeft(s[0].pc) + Total(s[1..])
  }

  lemma {:induction false} TotalFalls(s: State, t: State, m: nat)
    requires |s| == |t| && forall r :: 0 <= r < |s| ==> StepsLeft(t[r].pc) <= StepsLeft(s[r].pc)
    ensures Total(t) <= Total(s)
    ensures m < |s| && StepsLeft(t[m].pc) < StepsLeft(s[m].pc) ==> Total(t) < Total(s)
  {
    if s != [] {
      TotalFalls(s[1..], t[1..], if m > 0 then m - 1 else |s|);
    }
  }

  lemma StepFalls(fulls: seq<string>, s: State, a: Action, t: State)
    requires Step(fulls, s, a, t)
    ensures Total(t) < Total(s)
  {
    var m := SomeoneMoves(s, a);
    forall r | 0 <= r < |s|
      ensures StepsLeft(t[r].pc) <= StepsLeft(s[r].pc) && (r == m ==> StepsLeft(t[r].pc) < StepsLeft(s[r].pc))
    {
      assert Moved(fulls, s, a, r, t[r]);
    }
    TotalFalls(s, t, m);
  }

  lemma SomeoneMoves(s: State, a: Action) returns (m: nat)
    requires Enabled(s, a)
    ensures m < |s| && (a.Free? ==> m == a.r) && (a.MaxLen? || a.Gather? ==> s[m].unique == 1)
  {
    if a.Free? {
      m := a.r;
    } else if a.MaxLen? || a.Gather? {
      m :| m < |s| && s[m].unique == 1;
    } else {
      m := 0;
    }
  }

  lemma {:induction false} TotalAtStart(s: State)
    requires forall r :: 0 <= r < |s| ==> s[r].pc == AtSplit
    ensures Total(s) == 7 * |s|
  {
    if s != [] {
      TotalAtStart(s[1..]);
    }
  }

  /** Every run is this short. */
  lemma {:induction false} RunEnds(fulls: seq<string>, unique: seq<int>, run: seq<State>, actions: seq<Action>, i: nat)
    requires IsRun(fulls, unique, run, actions) && i < |run|
    ensures Total(run[i]) + i <= 7 * |fulls|
  {
    if i == 0 {
      TotalAtStart(run[0]);
    } else {
      RunEnds(fulls, unique, run, actions, i - 1);
      StepFalls(fulls, run[i - 1], actions[i - 1], run[i]);
    }
  }

  // ---------------------------------------------------------------- election and list together

  /** The world of the election for these hosts. */
  function WorldOf(fulls: seq<string>, color: (string, nat) -> int): E.World {
    E.World(seq(|fulls|, r requires 0 <= r < |fulls| => ShortName(fulls[r])), color)
  }

  /** What get_unique_host has returned to each rank. */
  function Results(s: E.State): seq<int> {
    seq(|s.procs|, r requires 0 <= r < |s.procs| => s.procs[r].result)
  }

  lemma ElectionElects(fulls: seq<string>, color: (string, nat) -> int, run: seq<E.State>, actions: seq<E.Action>)
    requires E.IsRun(WorldOf(fulls, color), run, actions) && R.AllReturned(run[|actions|])
    ensures IsElection(fulls, Results(run[|actions|]))
  {
    var w, s := WorldOf(fulls, color), run[|actions|];
    R.RunKeeps(w, run, actions, |actions|);
    forall r: nat | r < |fulls| ensures Results(s)[r] == if First(fulls, r) then 1 else 0 {
      R.ElectionSafety(w, run, actions, |actions|, r);
      assert R.FirstOfHost(w, r) <==> First(fulls, r) by {
        assert forall q :: 0 <= q < |fulls| ==> w.names[q] == ShortName(fulls[q]);
      }
    }
  }

  predicate EntryIsName(list: seq<char>, len: nat, k: nat, name: string) {
    StringAt(list, k * len) == name
  }

  /** list holds, at a distance of len, the short names of hosts, which are the lowest ranks of each host
      in ascending order: all host names, and none twice. */
  ghost predicate IsHostList(fulls: seq<string>, hosts: seq<nat>, list: seq<char>, len: nat) {
    && len > 0 && |list| == |hosts| * len
    && (forall k :: 0 <= k < |hosts| ==> hosts[k] < |fulls| && First(fulls, hosts[k]))
    && (forall k :: 0 <= k < |hosts| ==> EntryIsName(list, len, k, ShortName(fulls[hosts[k]])))
    && (forall j, k :: 0 <= j < k < |hosts| ==>
       hosts[j] < hosts[k] && ShortName(fulls[hosts[j]]) != ShortName(fulls[hosts[k]]))
    && (forall q :: 0 <= q < |fulls| ==> exists k ::
       0 <= k < |hosts| && ShortName(fulls[hosts[k]]) == ShortName(fulls[q]))
  }

  lemma ListIsRight(fulls: seq<string>, unique: seq<int>)
    requires Hostnames(fulls) && IsElection(fulls, unique)
    ensures EntryLength(fulls, unique) <= MAX_HOSTNAME_LEN
    ensures IsHostList(fulls, Elected(unique), HostList(fulls, unique), EntryLength(fulls, unique))
  {
    var hosts := Elected(unique);
    LongestFits(fulls, hosts);
    ElectedCover(fulls, unique);
    GatheredLength(fulls, hosts, EntryLength(fulls, unique));
    forall k | 0 <= k < |hosts|
      ensures EntryIsName(HostList(fulls, unique), EntryLength(fulls, unique), k, ShortName(fulls[hosts[k]]))
    {
      ListContents(fulls, unique, k);
    }
  }

  /** After the whole of gethostlist, whatever the hash, all ranks have one and the same host list. */
  lemma HostListAgreement(fulls: seq<string>, color: (string, nat) -> int, erun: seq<E.State>, eactions: seq<E.Action>,
      run: seq<State>, actions: seq<Action>, i: nat, r: nat)
    returns (hosts: seq<nat>, list: seq<char>)
    requires Hostnames(fulls) && E.IsRun(WorldOf(fulls, color), erun, eactions) && R.AllReturned(erun[|eactions|])
    requires IsRun(fulls, Results(erun[|eactions|]), run, actions) && i < |run| && r < |run[i]| && run[i][r].pc == Done
    ensures hosts == Elected(Results(erun[|eactions|])) && run[i][r].maxLen >= 0
    ensures run[i][r].numHosts == |hosts| && run[i][r].hostlist == Some(list) &&
        IsHostList(fulls, hosts, list, run[i][r].maxLen)
    ensures forall q :: 0 <= q < |run[i]| && run[i][q].pc == Done ==>
        run[i][q] == run[i][r].(unique := run[i][q].unique)
  {
    var unique := Results(erun[|eactions|]);
    ElectionElects(fulls, color, erun, eactions);
    ListsAgree(fulls, unique, run, actions, i, r);
    ListIsRight(fulls, unique);
    hosts, list := Elected(unique), HostList(fulls, unique);
    RunKeeps(fulls, unique, run, actions, i);
    forall q | 0 <= q < |run[i]| && run[i][q].pc == Done ensures run[i][q] == run[i][r].(unique := run[i][q].unique) {
      ListsAgree(fulls, unique, run, actions, i, q);
    }
  }
}
