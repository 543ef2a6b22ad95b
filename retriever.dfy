/** The retrieval policy of libaddressinput's Retriever: check storage first,
    download when the data is absent, corrupted or stale, store what was
    downloaded, and fall back to stale data once when the download fails. */
module RetrievalPolicy {
  import opened ValidatingStorage

  datatype Option<T> = None | Some(value: T)

  /** What the downloader reports for one attempt. */
  datatype FetchOutcome = FetchOk(data: Payload) | FetchFailed

  /** The arguments the `retrieved` callback receives: success, key, data. */
  datatype Completion = Completion(success: bool, key: Key, data: Payload)

  /** The data slot of a failed completion. */
  const NoData: Payload := ""

  /** The branch taken after reading storage. */
  datatype Plan =
    | UseStored(data: Payload)               // fresh data: no download
    | Download(fallback: Option<Payload>)    // download; `fallback` is stale data, if any

  /** Decides from the read outcome whether to download, and what may be
      served if the download fails. */
  function Decide(o: ReadOutcome): (p: Plan)
    ensures p.UseStored? <==> o.Fresh?
    ensures p.UseStored? ==> p.data == o.data
    ensures p.Download? ==> (p.fallback.Some? <==> o.Stale?)
    ensures p.Download? && o.Stale? ==> p.fallback.value == o.data
  {
    match o
    case Fresh(d) => UseStored(d)
    case Stale(d) => Download(Some(d))
    case Absent => Download(None)
    case Corrupted => Download(None)
  }

  /** The effect of one call: the storage afterwards, what the callback
      receives, and whether the downloader was asked. */
  datatype Step = Step(after: Store, completion: Completion, downloaded: bool)

  /** One call of Retrieve(key, ...) against `store`, with `fetch` standing
      for what the downloader would report if it were asked. */
  function Retrieval(store: Store, key: Key, fetch: FetchOutcome): (s: Step)
    // The callback is invoked with the requested key.
    ensures s.completion.key == key
    // No other key's entry changes.
    ensures forall k :: k != key ==> (k in s.after <==> k in store)
    ensures forall k :: k != key && k in store ==> s.after[k] == store[k]
    // Only data that is not fresh is downloaded.
    ensures s.downloaded <==> !Read(store, key).Fresh?
    // Storage changes only by storing a successful download.
    ensures s.after != store ==> s.downloaded && fetch.FetchOk?
    ensures s.downloaded && fetch.FetchOk? ==> Read(s.after, key) == Fresh(fetch.data)
    // Failure exactly when there was no intact payload and the download failed.
    ensures !s.completion.success <==> (key !in store || store[key].Damaged?) && fetch.FetchFailed?
    // Without a download, the fresh stored data is served.
    ensures !s.downloaded ==>
              key in store && store[key].Stored? && s.completion == Completion(true, key, store[key].payload)
    // A successful download is what is served.
    ensures s.downloaded && fetch.FetchOk? ==> s.completion == Completion(true, key, fetch.data)
    // After a failed download, only stale stored data can be served.
    ensures s.downloaded && fetch.FetchFailed? && s.completion.success ==>
              key in store && store[key] == Stored(s.completion.data, true)
  {
    match Decide(Read(store, key))
    case UseStored(d) => Step(store, Completion(true, key, d), false)
    case Download(fallback) =>
      match fetch
      case FetchOk(d) => Step(Put(store, key, d), Completion(true, key, d), true)
      case FetchFailed =>
        match fallback
        case Some(stale) => Step(store, Completion(true, key, stale), true)
        case None => Step(store, Completion(false, key, NoData), true)
  }

  /** Fresh data is served from storage: no download, storage unchanged. */
  lemma FreshServedWithoutDownload(store: Store, key: Key, d: Payload, fetch: FetchOutcome)
    requires key in store && store[key] == Stored(d, false)
    ensures Retrieval(store, key, fetch) == Step(store, Completion(true, key, d), false)
  {
  }

  /** Absent data is downloaded, stored as fresh and served. */
  lemma AbsentDownloadedAndStored(store: Store, key: Key, d: Payload)
    requires key !in store
    ensures Retrieval(store, key, FetchOk(d)) == Step(store[key := Stored(d, false)], Completion(true, key, d), true)
  {
  }

  /** Corrupted data causes exactly one download and is never served. */
  lemma CorruptedNeverServed(store: Store, key: Key, fetch: FetchOutcome)
    requires key in store && store[key].Damaged?
    ensures var s := Retrieval(store, key, fetch);
      && s.downloaded
      && (s.completion.success <==> fetch.FetchOk?)
      && (fetch.FetchOk? ==> s.completion.data == fetch.data && s.after == store[key := Stored(fetch.data, false)])
      && (fetch.FetchFailed? ==> s.after == store)
  {
  }

  /** Stale data is replaced by a successful download. */
  lemma StaleRefreshed(store: Store, key: Key, prev: Payload, d: Payload)
    requires key in store && store[key] == Stored(prev, true)
    ensures Retrieval(store, key, FetchOk(d)) == Step(store[key := Stored(d, false)], Completion(true, key, d), true)
  {
  }

  /** When the download fails, stale data is served this one time and the
      entry stays as it was, still stale. */
  lemma StaleFallback(store: Store, key: Key, prev: Payload)
    requires key in store && store[key] == Stored(prev, true)
    ensures Retrieval(store, key, FetchFailed) == Step(store, Completion(true, key, prev), true)
    ensures Read(Retrieval(store, key, FetchFailed).after, key) == Stale(prev)
  {
  }

  /** With no usable payload and a failed download the call fails. */
  lemma NothingUsableFails(store: Store, key: Key)
    requires key !in store || store[key].Damaged?
    ensures Retrieval(store, key, FetchFailed) == Step(store, Completion(false, key, NoData), true)
  {
  }

  /** A corrupted entry is discarded in effect: the caller sees the same
      completion and the same download as if nothing were stored, and the
      two storages afterwards differ at most at `key`, and not at all once
      a download succeeds. */
  lemma DamagedActsAsAbsent(store: Store, key: Key, fetch: FetchOutcome)
    ensures var damaged := Retrieval(store[key := Damaged], key, fetch);
            var absent := Retrieval(store - {key}, key, fetch);
            && damaged.completion == absent.completion
            && damaged.downloaded == absent.downloaded
            && damaged.after - {key} == absent.after - {key}
            && (fetch.FetchOk? ==> damaged.after == absent.after)
  {
  }

  /** Once fresh data expires, the next call downloads again, and if the
      download fails the expired data is served this one time. */
  lemma ExpiredIsRefetched(store: Store, key: Key, p: Payload, fetch: FetchOutcome)
    requires key in store && store[key] == Stored(p, false)
    ensures var s := Retrieval(Expire(store, key), key, fetch);
            && s.downloaded
            && s.completion == Completion(true, key, if fetch.FetchOk? then fetch.data else p)
  {
  }

  /** The owner of the storage: each Retrieve reads it, maybe downloads,
      maybe writes back, and completes once. */
  class Retriever {
    /** The validating storage the retriever owns. */
    var store: Store
    /** How many times the downloader has been asked. */
    ghost var downloads: nat

    constructor (initial: Store)
      ensures store == initial && downloads == 0
    {
      store := initial;
      downloads := 0;
    }

    /** Retrieves the data for `key`; the result is what the callback is
        invoked with. `fetch` is what the downloader reports if asked. */
    method Retrieve(key: Key, fetch: FetchOutcome) returns (r: Completion)
      modifies this
      ensures var s := Retrieval(old(store), key, fetch);
        && r == s.completion
        && store == s.after
        && downloads == old(downloads) + (if s.downloaded then 1 else 0)
    {
      var plan := Decide(Read(store, key));
      match plan {
        case UseStored(d) =>
          r := Completion(true, key, d);
        case Download(fallback) =>
          downloads := downloads + 1;
          match fetch {
            case FetchOk(d) =>
              store := Put(store, key, d);
              r := Completion(true, key, d);
            case FetchFailed =>
              if fallback.Some? {
                r := Completion(true, key, fallback.value);
              } else {
                r := Completion(false, key, NoData);
              }
          }
      }
    }
  }

  /** Four concrete situations, stated as verified assertions about a
      retriever object. */
  method Scenarios() {
    // Absent, then downloaded: the next read finds it fresh.
    var a := new Retriever(map[]);
    var ra := a.Retrieve("data/CA/AB--fr", FetchOk("X"));
    assert ra == Completion(true, "data/CA/AB--fr", "X");
    assert Read(a.store, "data/CA/AB--fr") == Fresh("X");
    var ra2 := a.Retrieve("data/CA/AB--fr", FetchFailed);
    assert ra2 == Completion(true, "data/CA/AB--fr", "X") && a.downloads == 1;

    // Stale with a failed download: the stale data once, and a retry next time.
    var b := new Retriever(map["data/US" := Stored("old", true)]);
    var rb := b.Retrieve("data/US", FetchFailed);
    assert rb == Completion(true, "data/US", "old");
    assert Read(b.store, "data/US") == Stale("old");
    var rb2 := b.Retrieve("data/US", FetchOk("new"));
    assert rb2 == Completion(true, "data/US", "new") && b.downloads == 2;

    // Corrupted with a failed download: failure.
    var c := new Retriever(map["data/FR" := Damaged]);
    var rc := c.Retrieve("data/FR", FetchFailed);
    assert !rc.success && c.downloads == 1;

    // Fresh: served without asking the downloader.
    var d := new Retriever(map["data/DE" := Stored("Y", false)]);
    var rd := d.Retrieve("data/DE", FetchOk("Z"));
    assert rd == Completion(true, "data/DE", "Y") && d.downloads == 0;
  }
}
