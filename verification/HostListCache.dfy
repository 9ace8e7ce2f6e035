/** adksys_hostlist of src/adksys_mpi.c: the host list is fetched once per process, and an error is
    remembered as well. */
module HostListCache {
  import opened AdiakTypes
  import opened MpiHostList

  /** What gethostlist leaves in its out parameters. */
  datatype Fetched = Fetched(list: seq<char>, numHosts: nat, maxLen: nat)

  /** The array of pointers into the list, as offsets. */
  function Pointers(numHosts: nat, maxLen: nat): seq<nat> {
    seq(numHosts, i requires 0 <= i < numHosts => (i * maxLen) as nat)
  }

  class Cache {
    var hostlist: Option<seq<char>>
    var hostlistArray: seq<nat>
    var numHosts: nat
    var hadError: bool
    /** What the first successful call fetched. */
    ghost var first: Option<Fetched>

    ghost predicate Valid()
      reads this
    {
      && (hostlist.Some? <==> first.Some?) && (hadError ==> first.None?)
      && (first.Some? ==>
            && hostlist == Some(first.value.list) && numHosts == first.value.numHosts
            && hostlistArray == Pointers(first.value.numHosts, first.value.maxLen))
    }

    constructor ()
      ensures Valid() && first == None && !hadError
    {
      hostlist, hostlistArray, numHosts, hadError, first := None, [], 0, false, None;
    }

    /** result is what gethostlist would return if it were called now, None for its error. */
    method HostList(result: Option<Fetched>) returns (ok: bool, pointers: seq<nat>, n: nat, buffer: Option<seq<char>>)
      requires Valid()
      modifies this
      ensures Valid() && ok == !hadError
      ensures hadError == (old(hadError) || (old(first).None? && result.None?))
      ensures first == if old(hadError) then None else if old(first).Some? then old(first) else result
      ensures ok ==> first.Some? && n == first.value.numHosts && buffer == Some(first.value.list)
      ensures ok ==> pointers == Pointers(first.value.numHosts, first.value.maxLen)
    {
      ok, pointers, n, buffer := false, [], 0, None;
      if hadError {
        return;
      }
      if hostlist.None? {
        if result.None? {
          hadError := true;
          return;
        }
        hostlist, numHosts, first := Some(result.value.list), result.value.numHosts, result;
        hostlistArray := [];
        for i := 0 to numHosts
          invariant hostlistArray == Pointers(i, result.value.maxLen)
          invariant hostlist == Some(result.value.list) && numHosts == result.value.numHosts && first == result &&
              !hadError
        {
          hostlistArray := hostlistArray + [i * result.value.maxLen];
        }
      }
      ok, pointers, n, buffer := true, hostlistArray, numHosts, hostlist;
    }
  }

  lemma EntryStartsInside(k: nat, n: nat, len: nat)
    requires k < n && len > 0
    ensures k * len < n * len
  {
  }

  /** The pointers find the host names. */
  lemma PointersFindNames(fulls: seq<string>, hosts: seq<nat>, list: seq<char>, len: nat, k: nat)
    requires IsHostList(fulls, hosts, list, len) && k < |hosts|
    ensures hosts[k] < |fulls| && Pointers(|hosts|, len)[k] < |list|
    ensures StringAt(list, Pointers(|hosts|, len)[k]) == ShortName(fulls[hosts[k]])
  {
    assert EntryIsName(list, len, k, ShortName(fulls[hosts[k]]));
    EntryStartsInside(k, |hosts|, len);
  }
}
