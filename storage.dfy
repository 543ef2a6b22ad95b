/** The validating storage that a Retriever owns (its `storage_` member).
    How integrity and freshness are detected (checksums, timestamps, the
    clock) is not part of this model: a stored entry simply records whether
    its payload is intact, and if so whether it has expired. */
module ValidatingStorage {

  /** A lookup key such as "data/CA/AB--fr"; opaque to the retriever. */
  type Key = string

  /** The data stored or downloaded for a key. */
  type Payload = string

  /** What the underlying storage holds for one key. */
  datatype Entry =
    | Stored(payload: Payload, stale: bool)  // passes the integrity check; `stale` once expired
    | Damaged                                // fails the integrity check

  /** What a read reports; only the two valid outcomes carry a payload. */
  datatype ReadOutcome =
    | Absent
    | Corrupted
    | Fresh(data: Payload)
    | Stale(data: Payload)

  /** The contents of the storage, key by key. */
  type Store = map<Key, Entry>

  /** Reads `key`, judging the stored entry. */
  function Read(store: Store, key: Key): (o: ReadOutcome)
    ensures o.Absent? <==> key !in store
    ensures o.Corrupted? <==> key in store && store[key].Damaged?
    ensures o.Fresh? ==> key in store && store[key] == Stored(o.data, false)
    ensures o.Stale? ==> key in store && store[key] == Stored(o.data, true)
  {
    if key !in store then Absent
    else match store[key]
      case Damaged => Corrupted
      case Stored(p, stale) => if stale then Stale(p) else Fresh(p)
  }

  /** Writes `data` for `key`; a new write supersedes any earlier entry,
      corrupted or stale, and is fresh until it expires. */
  function Put(store: Store, key: Key, data: Payload): (r: Store)
    ensures Read(r, key) == Fresh(data)
    ensures r.Keys == store.Keys + {key}
    ensures forall k :: k in store && k != key ==> r[k] == store[k]
  {
    store[key := Stored(data, false)]
  }

  /** The passage of time on one entry: intact data for `key` expires.
      When this happens is decided by the storage's clock, which is not
      part of this model. */
  function Expire(store: Store, key: Key): (r: Store)
    ensures key in store && store[key].Stored? ==> Read(r, key) == Stale(store[key].payload)
    ensures key !in store || store[key].Damaged? ==> r == store
    ensures r.Keys == store.Keys
    ensures forall k :: k in store && k != key ==> r[k] == store[k]
  {
    if key in store && store[key].Stored? then store[key := Stored(store[key].payload, true)] else store
  }

  /** Writing the same payload twice is the same as writing it once. */
  lemma PutIdempotent(store: Store, key: Key, data: Payload)
    ensures Put(Put(store, key, data), key, data) == Put(store, key, data)
  {
  }
}
