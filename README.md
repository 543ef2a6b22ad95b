# Retriever retrieval policy (libaddressinput)

This project models the retrieval policy of libaddressinput's `Retriever`
(`cpp/src/retriever.h`). `Retrieve(key, retrieved)` looks in the
retriever's validating storage first. It serves fresh data as it is. It
downloads when the data is absent, corrupted or stale, and stores what it
downloaded. If the download fails after stale data was read, it serves the
stale data this one time and leaves storage untouched, so the next call
downloads again. In every case the `retrieved` callback is invoked once,
with `(success, key, data)`.

Layout:

- `storage.dfy`, module `ValidatingStorage`: the owned storage as a
  `map<Key, Entry>`. An entry is an intact payload with a stale flag, or
  damaged. `Read` turns an entry into the four read outcomes (absent,
  corrupted, fresh, stale), `Put` writes a fresh payload, and `Expire`
  stands for the passage of time that makes one entry stale.
- `retriever.dfy`, module `RetrievalPolicy`: the branch decision `Decide`,
  the effect of one call as a pure function `Retrieval`, lemmas for each
  case of the documented contract, and `class Retriever`. The class has the
  mutable field `store` and a ghost count of download attempts. Its method
  `Retrieve` reads, decides, maybe downloads, maybe writes back, and
  returns the callback's arguments. It is proved equal to `Retrieval`.
  `Scenarios` states four concrete situations as verified assertions about
  a `Retriever` object.
- `traces.dfy`, module `RetrievalTraces`: successive calls on one
  retriever (`Run`), with the properties that span several calls. These
  are: staleness is never cleared by a fallback, fresh data stays served,
  untouched keys keep their entries, and everything served was either
  intact in storage or downloaded for that key.

The downloader is not called. Each call receives a `FetchOutcome`
(`FetchOk(data)` or `FetchFailed`), which is what the downloader would
report if asked. The ghost counter `downloads` and the `downloaded` flag
record whether it was asked.

The header places no condition on `key`, so the model accepts every key,
including the empty one.

## Model

| member | source | states |
|---|---|---|
| ValidatingStorage.Read | cpp/src/retriever.h:55-58 | a read reports absent exactly when nothing is stored and corrupted exactly when the entry fails validation; a fresh or stale report carries the stored payload |
| ValidatingStorage.Put | cpp/src/retriever.h:55-57 | storing downloaded data makes the next read report it fresh, replaces an earlier corrupted or stale entry, and changes no other key |
| ValidatingStorage.Expire | cpp/src/retriever.h:57-58 | when intact data expires it reads as stale with the same payload; absent and corrupted entries and other keys are unaffected |
| ValidatingStorage.PutIdempotent | cpp/src/retriever.h:55-56 | storing the same data twice leaves storage as one store does |
| RetrievalPolicy.Decide | cpp/src/retriever.h:54-59 | storage is checked first; only fresh data is served without a download; only stale data is kept as a fallback for a failed download |
| RetrievalPolicy.Retrieval | cpp/src/retriever.h:45-61 | the callback gets the requested key; no other key's entry changes; a download happens exactly when the data is not fresh; storage changes only by storing a successful download; the call fails exactly when nothing intact was stored and the download failed; without a download the fresh stored data is served, after a successful download the downloaded data, and after a failed download only the stale stored data |
| RetrievalPolicy.FreshServedWithoutDownload | cpp/src/retriever.h:55 | fresh stored data is served with no download and storage unchanged |
| RetrievalPolicy.AbsentDownloadedAndStored | cpp/src/retriever.h:55-56 | absent data is downloaded, served, and stored as fresh under the same key |
| RetrievalPolicy.CorruptedNeverServed | cpp/src/retriever.h:56-57 | corrupted data causes exactly one download and is never served; success is the download's success; a successful download overwrites the entry, a failed one leaves the damaged entry in storage |
| RetrievalPolicy.StaleRefreshed | cpp/src/retriever.h:57-58 | stale data with a successful download: the new data is served and overwrites the entry as fresh |
| RetrievalPolicy.StaleFallback | cpp/src/retriever.h:58-59 | stale data with a failed download: the stale data is served and storage is left exactly as it was, still stale |
| RetrievalPolicy.NothingUsableFails | cpp/src/retriever.h:54-59 | absent or corrupted data with a failed download: the call reports failure and storage is unchanged (a damaged entry stays) |
| RetrievalPolicy.DamagedActsAsAbsent | cpp/src/retriever.h:56-57 | corrupted data is discarded in effect: the caller sees the same completion and the same download as with nothing stored, and storage afterwards differs at most at that key, and not at all after a successful download |
| RetrievalPolicy.ExpiredIsRefetched | cpp/src/retriever.h:57-59 | once fresh data expires, the next call downloads again, serving the new data or, if the download fails, the expired data |
| RetrievalPolicy.Retriever.constructor | cpp/src/retriever.h:48-51 | the retriever takes over the given storage; no download has been made |
| RetrievalPolicy.Retriever.Retrieve | cpp/src/retriever.h:54-61 | the result, the new storage and the download count are those of `Retrieval` on the storage before the call |
| RetrievalTraces.Run | cpp/src/retriever.h:45-61 | over successive calls, each call completes exactly once with its own key, each call records whether it downloaded, and there is at most one download per call |
| RetrievalTraces.StaleFallbackRepeats | cpp/src/retriever.h:58-60 | any number of calls on stale data with failing downloads each download again and serve the stale data, and storage stays exactly as it was |
| RetrievalTraces.StaleNotSnoozed | cpp/src/retriever.h:59-60 | after any number of stale fallbacks the next call downloads again and behaves as if the fallbacks had not happened |
| RetrievalTraces.DownloadThenHit | cpp/src/retriever.h:55-56 | after a successful download, the next call for the key is served the same data from storage without downloading |
| RetrievalTraces.FreshIsStable | cpp/src/retriever.h:54-56 | while no entry expires, fresh data stays in storage through any calls, and every call for its key is answered with it without a download |
| RetrievalTraces.OtherKeysUnchanged | cpp/src/retriever.h:61 | a key that no call requests keeps its entry through any calls |
| RetrievalTraces.ServedIsVouched | cpp/src/retriever.h:56-57 | whatever any sequence of calls serves was intact in the initial storage, or came from a download that this call or an earlier one actually made for that key and that succeeded with that data; corrupted data is never served |

## Left out

- The `Downloader` and the data URL (`validation_data_url`) are I/O and are not part of this model. A download is the `FetchOutcome` passed to each call.
- How `ValidatingStorage` and `Storage` detect corruption and staleness (checksums, timestamps, the clock) is not part of this model. An entry records its state directly. `Expire` makes one entry stale, but a sequence of calls (`Run`) has no expiry between calls, so there stale entries come only from the initial storage.
- FreshIsStable: holds only while no entry expires. A sequence of calls has no expiry events, so the lemma does not cover data that goes stale between calls. `ExpiredIsRefetched` covers the single call after an expiry.
- CorruptedNeverServed: the header says corrupted data "is discarded". The model reads that as "never served". After a failed download the damaged entry stays in storage, where the source may delete it. `DamagedActsAsAbsent` shows that no caller can tell the two apart.
- NothingUsableFails: storage is unchanged after the failure, so a damaged entry stays rather than being deleted. By `DamagedActsAsAbsent`, no caller can tell this from deleting it.
- `LookupKeyUtil` and the mapping from keys to URLs are not part of this model. Keys are opaque strings.
- The callback machinery is not modelled, including deferred or asynchronous completion. `Retrieve` returns the callback's three arguments, so "exactly once" holds by construction.
- Ownership (`scoped_ptr`), the destructor and `DISALLOW_COPY_AND_ASSIGN` are not modelled. They have no behaviour to state.
- `Retrieve` is declared `const` in C++, yet it writes the storage that it owns through a pointer. In the model the storage is a field of the retriever, so `Retrieve` modifies the retriever.
- The header does not say what data slot a failed completion carries. The model passes the empty string (`NoData`), and callers must look at the success flag.
