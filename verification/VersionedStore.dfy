/** One object of the Kubernetes API as its clients see it: absent, or data under a version that every
    write changes. A create fails if the object exists, an update if it is not the version read. */
module VersionedStore {

  datatype Object<+D> = Absent | Present(data: D, version: nat)

  /** The object, and a bound on the versions handed out. */
  datatype Store<+D> = Store(held: Object<D>, next: nat)

  predicate Fits<D>(s: Store<D>) { s.held.Present? ==> s.held.version < s.next }

  function Put<D>(s: Store<D>, data: D): Store<D> { Store(Present(data, s.next), s.next + 1) }

  predicate CanCreate<D>(s: Store<D>) { s.held.Absent? }

  predicate CanUpdate<D>(s: Store<D>, version: nat) { s.held.Present? && s.held.version == version }

  class ApiServer<D> {
    var store: Store<D>

    constructor (store: Store<D>)
      ensures this.store == store
    {
      this.store := store;
    }

    method Get() returns (found: Object<D>)
      ensures found == store.held
    {
      found := store.held;
    }

    method Create(data: D) returns (ok: bool)
      modifies this
      ensures ok == CanCreate(old(store)) && store == if ok then Put(old(store), data) else old(store)
    {
      ok := store.held.Absent?;
      if ok { store := Store(Present(data, store.next), store.next + 1); }
    }

    method Update(data: D, version: nat) returns (ok: bool)
      modifies this
      ensures ok == CanUpdate(old(store), version) && store == if ok then Put(old(store), data) else old(store)
    {
      ok := store.held.Present? && store.held.version == version;
      if ok { store := Store(Present(data, store.next), store.next + 1); }
    }
  }
}
