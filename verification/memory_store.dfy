/** The Memory server as an in-memory key-value store, with the semantics of
    the reference implementation the tests use. Keys keep insertion order. */
module MemoryStore {
  import opened Wrappers
  import opened Json
  import Dict
  import opened Strings
  import Clock
  import Seqs

  datatype Entry = Entry(key: string, value: Json, createdAt: string, updatedAt: string)

  type Store = Dict.Dict<Entry>

  function Get(st: Store, key: string): Option<Entry> {
    Dict.Get(st, key)
  }

  /** `set(key, value)`: always succeeds; the entry keeps its original
      `created_at` when the key already existed. */
  function Set(st: Store, key: string, value: Json, now: Clock.Instant): (r: Store)
    ensures Get(r, key).Some? && Get(r, key).value.value == value
    ensures Get(r, key).value.updatedAt == Clock.IsoFormat(now)
    ensures Get(r, key).value.createdAt
            == if Get(st, key).Some? then Get(st, key).value.createdAt else Clock.IsoFormat(now)
    ensures forall k :: k != key ==> Get(r, k) == Get(st, k)
  {
    var stamp := Clock.IsoFormat(now);
    var created := match Get(st, key) case Some(e) => e.createdAt case None => stamp;
    Dict.Put(st, key, Entry(key, value, created, stamp))
  }

  /** `delete(key)`: reports success whether or not the key existed. */
  function Delete(st: Store, key: string): (r: (Store, bool))
    ensures r.1
    ensures Get(r.0, key).None?
    ensures forall k :: k != key ==> Get(r.0, k) == Get(st, k)
  {
    (Dict.Remove(st, key), true)
  }

  /** `list_keys(prefix)`: an empty prefix lists every key. */
  function ListKeys(st: Store, prefix: string): (r: seq<string>)
    ensures forall k :: k in r <==> k in Dict.Keys(st) && (prefix == "" || StartsWith(k, prefix))
  {
    var keys := Dict.Keys(st);
    if prefix == "" then keys
    else Seqs.Filter((k: string) => StartsWith(k, prefix), keys)
  }
}
