/**
 * The result store: riding name to its row of vote shares. Python dictionaries
 * keep insertion order, and the averages iterate over the store in that order,
 * so the store is an association list whose names are distinct. Overwriting a
 * name keeps its position; a new name is appended.
 */
module ResultStore {
  import opened Wrappers
  import opened Parties

  datatype Entry = Entry(name: string, shares: seq<real>)

  type Store = seq<Entry>

  /** No name is stored twice. */
  predicate DistinctNames(store: Store) {
    forall i, j :: 0 <= i < j < |store| ==> store[i].name != store[j].name
  }

  /** Every stored row has one share per party per year. */
  predicate FullRows(store: Store) {
    forall i :: 0 <= i < |store| ==> |store[i].shares| == RowWidth
  }

  predicate Valid(store: Store) {
    DistinctNames(store) && FullRows(store)
  }

  /** The position of `name` in the store, if it is stored. */
  function Find(store: Store, name: string): (r: Option<nat>)
    ensures r.None? <==> forall i :: 0 <= i < |store| ==> store[i].name != name
    ensures r.Some? ==> r.value < |store| && store[r.value].name == name
    ensures r.Some? ==> forall i :: 0 <= i < r.value ==> store[i].name != name
    decreases |store|
  {
    if |store| == 0 then None
    else if store[0].name == name then Some(0)
    else match Find(store[1..], name)
      case None => None
      case Some(i) => Some(i + 1)
  }

  /** `store.get(name)`: the shares stored under `name`, if any. */
  function Lookup(store: Store, name: string): Option<seq<real>>
  {
    match Find(store, name)
    case None => None
    case Some(i) => Some(store[i].shares)
  }

  /** Two stores with the same names in the same positions find names alike. */
  lemma FindByNames(a: Store, b: Store, name: string)
    requires |a| == |b|
    requires forall i :: 0 <= i < |a| ==> a[i].name == b[i].name
    ensures Find(a, name) == Find(b, name)
  {
  }

  /** Appending an entry is seen only by names not already stored. */
  lemma {:induction false} FindAppend(store: Store, e: Entry, name: string)
    ensures Find(store + [e], name) ==
      if Find(store, name).Some? then Find(store, name)
      else if e.name == name then Some(|store|)
      else None
    decreases |store|
  {
    if |store| > 0 {
      assert (store + [e])[1..] == store[1..] + [e];
      FindAppend(store[1..], e, name);
    }
  }

  /** `store[name] = shares`: the value is replaced in place, or appended when new. */
  function Put(store: Store, name: string, shares: seq<real>): (r: Store)
    ensures Lookup(r, name) == Some(shares)
    ensures forall other :: other != name ==> Lookup(r, other) == Lookup(store, other)
    ensures Lookup(store, name).Some? ==> |r| == |store|
    ensures Lookup(store, name).None? ==> r == store + [Entry(name, shares)]
    ensures |store| <= |r| && forall i :: 0 <= i < |store| ==> r[i].name == store[i].name
    ensures forall i :: 0 <= i < |store| && store[i].name != name ==> r[i] == store[i]
  {
    match Find(store, name)
    case Some(i) =>
      var r := store[i := Entry(name, shares)];
      FindByNames(r, store, name);
      assert forall other :: Find(r, other) == Find(store, other) by {
        forall other {
          FindByNames(r, store, other);
        }
      }
      r
    case None =>
      var r := store + [Entry(name, shares)];
      FindAppend(store, Entry(name, shares), name);
      assert forall other :: other != name ==> Find(r, other) == Find(store, other) by {
        forall other | other != name
          ensures Find(r, other) == Find(store, other)
        {
          FindAppend(store, Entry(name, shares), other);
        }
      }
      r
  }

  /** Storing a full row keeps the store valid. */
  lemma PutValid(store: Store, name: string, shares: seq<real>)
    ensures Valid(store) && |shares| == RowWidth ==> Valid(Put(store, name, shares))
  {
  }
}
