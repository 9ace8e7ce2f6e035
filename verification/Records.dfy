/** What the name/value store of src/adiak.c holds, as a list of entries, newest first, and what any
    sequence of registrations leaves in it. */
module Records {
  import opened AdiakTypes
  import opened Views

  const CATEGORY_ALL := 1
  const CONTROL := 4

  /** A type and a value as a caller hands them over: the descriptor with the blocks from typeAt on,
      and the value in a cell of its own with the blocks from base on. */
  datatype Handle = Handle(dtype: DType, typeAt: nat, value: Value, cell: nat, base: nat)

  /** adiak_record_info_t */
  datatype Info = Info(category: int, subcategory: Option<string>, timestamp: int)

  datatype Entry = Entry(name: string, category: int, subcategory: Option<string>, held: Handle)

  /** The place of name in es from i on, or the end. */
  function IndexOf(es: seq<Entry>, name: string, i: nat): (k: nat)
    requires i <= |es|
    ensures i <= k <= |es| && (k < |es| ==> es[k].name == name) && forall j :: i <= j < k ==> es[j].name != name
    decreases |es| - i
  {
    if i == |es| || es[i].name == name then i else IndexOf(es, name, i + 1)
  }

  function Lookup(es: seq<Entry>, name: string): Option<Entry> {
    var k := IndexOf(es, name, 0);
    if k < |es| then Some(es[k]) else None
  }

  /** A registration: a new name comes first, a known one keeps its place. */
  function Upsert(es: seq<Entry>, e: Entry): seq<Entry> {
    var k := IndexOf(es, e.name, 0);
    if k < |es| then es[k := e] else [e] + es
  }

  ghost predicate NamesUnique(es: seq<Entry>) {
    forall i, j :: 0 <= i < j < |es| ==> es[i].name != es[j].name
  }

  predicate InCategory(e: Entry, category: int) {
    category == CATEGORY_ALL || e.category == category
  }

  /** The entries of a category from i on, in order. */
  function Listing(es: seq<Entry>, category: int, i: nat): seq<Entry>
    requires i <= |es|
    decreases |es| - i
  {
    if i == |es| then []
    else (if InCategory(es[i], category) then [es[i]] else []) + Listing(es, category, i + 1)
  }

  /** One entry further. */
  lemma ListingStep(es: seq<Entry>, category: int, i: nat, done: seq<Entry>, all: seq<Entry>)
    requires i < |es| && done + Listing(es, category, i) == all
    ensures (done + if InCategory(es[i], category) then [es[i]] else []) + Listing(es, category, i + 1) == all
  {
    var here, rest := if InCategory(es[i], category) then [es[i]] else [], Listing(es, category, i + 1);
    assert done + (here + rest) == (done + here) + rest;
  }

  /** Listing the category with the number 1, adiak_category_all, gives every entry. */
  lemma {:induction false} ListingAll(es: seq<Entry>, i: nat)
    requires i <= |es|
    ensures Listing(es, 1, i) == es[i..]
    decreases |es| - i
  {
    if i < |es| {
      ListingAll(es, i + 1);
    }
  }

  /** The places from i on of the entries whose category is c. */
  function PlacesOf(es: seq<Entry>, c: int, i: nat): (ks: seq<nat>)
    requires i <= |es|
    ensures forall j :: 0 <= j < |ks| ==> i <= ks[j] < |es| && es[ks[j]].category == c
    ensures forall j, l :: 0 <= j < l < |ks| ==> ks[j] < ks[l]
    ensures forall k :: i <= k < |es| && es[k].category == c ==> k in ks
    decreases |es| - i
  {
    if i == |es| then [] else (if es[i].category == c then [i] else []) + PlacesOf(es, c, i + 1)
  }

  /** Listing any other one gives the entries whose category it is, in their order. */
  lemma {:induction false} ListingOne(es: seq<Entry>, c: int, i: nat)
    requires i <= |es| && c != 1
    ensures |Listing(es, c, i)| == |PlacesOf(es, c, i)|
    ensures forall j :: 0 <= j < |PlacesOf(es, c, i)| ==> Listing(es, c, i)[j] == es[PlacesOf(es, c, i)[j]]
    decreases |es| - i
  {
    if i < |es| {
      ListingOne(es, c, i + 1);
    }
  }

  // ---------------------------------------------------------------- whole runs

  /** What a sequence of registrations leaves. */
  function After(puts: seq<Entry>): seq<Entry> {
    if puts == [] then [] else Upsert(After(puts[..|puts| - 1]), puts[|puts| - 1])
  }

  /** The last registration under name. */
  function Latest(puts: seq<Entry>, name: string): Option<Entry> {
    if puts == [] then None
    else if puts[|puts| - 1].name == name then Some(puts[|puts| - 1])
    else Latest(puts[..|puts| - 1], name)
  }

  /** The names in reverse order of their first registration. */
  function FirstNames(puts: seq<Entry>): seq<string> {
    if puts == [] then []
    else
      var names := FirstNames(puts[..|puts| - 1]);
      if puts[|puts| - 1].name in names then names else [puts[|puts| - 1].name] + names
  }

  lemma UpsertLookup(es: seq<Entry>, e: Entry, name: string)
    requires NamesUnique(es)
    ensures NamesUnique(Upsert(es, e))
    ensures Lookup(Upsert(es, e), name) == if name == e.name then Some(e) else Lookup(es, name)
  {
    var us, n := Upsert(es, e), IndexOf(es, name, 0);
    if IndexOf(es, e.name, 0) == |es| {
      assert n < |es| ==> us[n + 1] == es[n];
    } else {
      assert n < |es| ==> us[n].name == name;
    }
  }

  /** The store agrees with the map from each name to its latest registration, and no name is there twice. */
  lemma {:induction false} StoreIsLatest(puts: seq<Entry>, name: string)
    ensures NamesUnique(After(puts)) && Lookup(After(puts), name) == Latest(puts, name)
  {
    if puts != [] {
      StoreIsLatest(puts[..|puts| - 1], name);
      UpsertLookup(After(puts[..|puts| - 1]), puts[|puts| - 1], name);
    }
  }

  ghost predicate Named(es: seq<Entry>, names: seq<string>) {
    |es| == |names| && forall i :: 0 <= i < |es| ==> es[i].name == names[i]
  }

  lemma UpsertNames(es: seq<Entry>, names: seq<string>, e: Entry)
    requires Named(es, names)
    ensures Named(Upsert(es, e), if e.name in names then names else [e.name] + names)
  {
    var k := IndexOf(es, e.name, 0);
    if k < |es| {
      assert names[k] == e.name;
    } else {
      assert forall i :: 0 <= i < |names| ==> names[i] != e.name by {
        assert forall i :: 0 <= i < |es| ==> es[i].name != e.name;
      }
    }
  }

  /** Overwriting keeps the place: the entries stand in reverse order of first registration. */
  lemma {:induction false} StoreOrder(puts: seq<Entry>)
    ensures Named(After(puts), FirstNames(puts))
  {
    if puts != [] {
      StoreOrder(puts[..|puts| - 1]);
      UpsertNames(After(puts[..|puts| - 1]), FirstNames(puts[..|puts| - 1]), puts[|puts| - 1]);
    }
  }

  /** The latest registrations under the names, in their order, of those in the category. */
  function Expected(puts: seq<Entry>, names: seq<string>, category: int): seq<Entry> {
    if names == [] then []
    else
      var e := Latest(puts, names[0]);
      (if e.Some? && InCategory(e.value, category) then [e.value] else []) + Expected(puts, names[1..], category)
  }

  lemma {:induction false} ListingFrom(puts: seq<Entry>, category: int, i: nat)
    requires i <= |After(puts)|
    ensures |After(puts)| == |FirstNames(puts)|
    ensures Listing(After(puts), category, i) == Expected(puts, FirstNames(puts)[i..], category)
    decreases |After(puts)| - i
  {
    StoreOrder(puts);
    if i < |After(puts)| {
      ListingFrom(puts, category, i + 1);
      EntryIsLatest(puts, i);
      assert FirstNames(puts)[i..][1..] == FirstNames(puts)[i + 1..];
    }
  }

  lemma EntryIsLatest(puts: seq<Entry>, i: nat)
    requires i < |After(puts)|
    ensures Latest(puts, After(puts)[i].name) == Some(After(puts)[i])
  {
    StoreIsLatest(puts, After(puts)[i].name);
  }

  /** Each name of the category is listed exactly once, with its latest registration, in reverse
      order of first registration. */
  lemma ListingIsExpected(puts: seq<Entry>, category: int)
    ensures Listing(After(puts), category, 0) == Expected(puts, FirstNames(puts), category)
  {
    ListingFrom(puts, category, 0);
  }

  lemma {:induction false} FirstNamesUnique(puts: seq<Entry>)
    ensures forall i, j :: 0 <= i < j < |FirstNames(puts)| ==> FirstNames(puts)[i] != FirstNames(puts)[j]
    ensures forall name :: name in FirstNames(puts) <==> Latest(puts, name).Some?
  {
    if puts != [] {
      FirstNamesUnique(puts[..|puts| - 1]);
    }
  }
}
