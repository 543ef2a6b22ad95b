/** Successive calls of Retrieve on one retriever: the storage that one call
    leaves behind is what the next call reads. */
module RetrievalTraces {
  import opened ValidatingStorage
  import opened RetrievalPolicy

  /** One call: the requested key and what the downloader reports if asked. */
  datatype Call = Call(key: Key, fetch: FetchOutcome)

  /** The effect of a sequence of calls: the final storage, one completion
      per call in order, whether each call asked the downloader, and the
      number of downloads. */
  datatype Trace = Trace(after: Store, completions: seq<Completion>, fetched: seq<bool>, downloads: nat)

  /** Runs `calls` in order starting from `store`. */
  function Run(store: Store, calls: seq<Call>): (t: Trace)
    // Each call completes exactly once, with its own key.
    ensures |t.completions| == |calls| && |t.fetched| == |calls|
    ensures forall i :: 0 <= i < |calls| ==> t.completions[i].key == calls[i].key
    // At most one download per call.
    ensures t.downloads <= |calls|
    decreases |calls|
  {
    if calls == [] then Trace(store, [], [], 0)
    else
      var s := Retrieval(store, calls[0].key, calls[0].fetch);
      var rest := Run(s.after, calls[1..]);
      Trace(rest.after, [s.completion] + rest.completions, [s.downloaded] + rest.fetched,
            rest.downloads + (if s.downloaded then 1 else 0))
  }

  /** `n` copies of `x`. */
  function Repeat<T>(x: T, n: nat): (r: seq<T>)
    ensures |r| == n
    ensures forall i :: 0 <= i < n ==> r[i] == x
  {
    if n == 0 then [] else [x] + Repeat(x, n - 1)
  }

  /** Running `a` and then `b` is running `a + b`. */
  lemma {:induction false} RunAppend(store: Store, a: seq<Call>, b: seq<Call>)
    ensures var ta := Run(store, a);
            var tb := Run(ta.after, b);
            Run(store, a + b)
              == Trace(tb.after, ta.completions + tb.completions, ta.fetched + tb.fetched, ta.downloads + tb.downloads)
    decreases |a|
  {
    if a == [] {
      assert a + b == b;
    } else {
      assert (a + b)[0] == a[0];
      assert (a + b)[1..] == a[1..] + b;
      var s := Retrieval(store, a[0].key, a[0].fetch);
      RunAppend(s.after, a[1..], b);
      var ta' := Run(s.after, a[1..]);
      var tb := Run(ta'.after, b);
      assert [s.completion] + (ta'.completions + tb.completions) == ([s.completion] + ta'.completions) + tb.completions;
      assert [s.downloaded] + (ta'.fetched + tb.fetched) == ([s.downloaded] + ta'.fetched) + tb.fetched;
    }
  }

  /** Failed downloads never clear staleness: every one of `n` calls with a
      failing downloader asks the downloader again, serves the stale data
      and leaves storage exactly as it was. */
  lemma {:induction false} StaleFallbackRepeats(store: Store, key: Key, prev: Payload, n: nat)
    requires key in store && store[key] == Stored(prev, true)
    ensures Run(store, Repeat(Call(key, FetchFailed), n))
         == Trace(store, Repeat(Completion(true, key, prev), n), Repeat(true, n), n)
  {
    if n > 0 {
      StaleFallbackRepeats(store, key, prev, n - 1);
    }
  }

  /** After any number of stale fallbacks, the next call behaves as if the
      fallbacks had never happened: it downloads again, and a successful
      download replaces the stale data. */
  lemma StaleNotSnoozed(store: Store, key: Key, prev: Payload, n: nat, fetch: FetchOutcome)
    requires key in store && store[key] == Stored(prev, true)
    ensures var t := Run(store, Repeat(Call(key, FetchFailed), n) + [Call(key, fetch)]);
            var s := Retrieval(store, key, fetch);
            && s.downloaded
            && t.after == s.after
            && t.completions == Repeat(Completion(true, key, prev), n) + [s.completion]
            && t.fetched == Repeat(true, n + 1)
            && t.downloads == n + 1
  {
    StaleFallbackRepeats(store, key, prev, n);
    RunAppend(store, Repeat(Call(key, FetchFailed), n), [Call(key, fetch)]);
    assert Repeat(true, n) + [true] == Repeat(true, n + 1);
  }

  /** Once downloaded, data is served from storage by the next call for the
      same key, without a second download (nothing expires in this model). */
  lemma DownloadThenHit(store: Store, key: Key, d: Payload, fetch: FetchOutcome)
    requires !Read(store, key).Fresh?
    ensures Run(store, [Call(key, FetchOk(d)), Call(key, fetch)])
         == Trace(Put(store, key, d), [Completion(true, key, d), Completion(true, key, d)], [true, false], 1)
  {
    var calls := [Call(key, FetchOk(d)), Call(key, fetch)];
    var first := Retrieval(store, key, FetchOk(d));
    assert first == Step(Put(store, key, d), Completion(true, key, d), true);
    assert calls[1..] == [Call(key, fetch)];
    assert Retrieval(first.after, key, fetch) == Step(first.after, Completion(true, key, d), false);
    assert Run(first.after, calls[1..]) == Trace(first.after, [Completion(true, key, d)], [false], 0);
  }

  /** While no entry expires, fresh data stays fresh through any calls, and
      every call for its key is answered with it without a download. */
  lemma {:induction false} FreshIsStable(store: Store, calls: seq<Call>, key: Key, p: Payload)
    requires key in store && store[key] == Stored(p, false)
    ensures key in Run(store, calls).after && Run(store, calls).after[key] == Stored(p, false)
    ensures forall i :: 0 <= i < |calls| && calls[i].key == key ==>
              Run(store, calls).completions[i] == Completion(true, key, p) && !Run(store, calls).fetched[i]
    decreases |calls|
  {
    if calls != [] {
      var s := Retrieval(store, calls[0].key, calls[0].fetch);
      assert key in s.after && s.after[key] == Stored(p, false);
      FreshIsStable(s.after, calls[1..], key, p);
      var t := Run(store, calls);
      forall i | 0 <= i < |calls| && calls[i].key == key
        ensures t.completions[i] == Completion(true, key, p) && !t.fetched[i]
      {
        if i > 0 {
          assert calls[1..][i - 1] == calls[i];
        }
      }
    }
  }

  /** A key that no call asks for keeps its entry. */
  lemma {:induction false} OtherKeysUnchanged(store: Store, calls: seq<Call>, k: Key)
    requires forall i :: 0 <= i < |calls| ==> calls[i].key != k
    ensures k in Run(store, calls).after <==> k in store
    ensures k in store ==> Run(store, calls).after[k] == store[k]
    decreases |calls|
  {
    if calls != [] {
      var s := Retrieval(store, calls[0].key, calls[0].fetch);
      OtherKeysUnchanged(s.after, calls[1..], k);
    }
  }

  /** `d` may be served for `k`: it was intact in the initial storage, or
      one of `calls` asked the downloader for `k` and the download produced
      `d` (`fetched` says which calls asked). */
  ghost predicate Vouched(init: Store, calls: seq<Call>, fetched: seq<bool>, k: Key, d: Payload)
  {
    || (k in init && init[k].Stored? && init[k].payload == d)
    || exists j :: 0 <= j < |calls| && j < |fetched| && fetched[j] && calls[j] == Call(k, FetchOk(d))
  }

  /** Every intact entry of `store` is vouched for. */
  ghost predicate Backed(store: Store, init: Store, calls: seq<Call>, fetched: seq<bool>)
  {
    forall k :: k in store && store[k].Stored? ==> Vouched(init, calls, fetched, k, store[k].payload)
  }

  /** What is vouched for stays vouched for when more calls are made. */
  lemma VouchedGrows(init: Store, calls: seq<Call>, fetched: seq<bool>, c: Call, b: bool, k: Key, d: Payload)
    requires |calls| == |fetched|
    requires Vouched(init, calls, fetched, k, d)
    ensures Vouched(init, calls + [c], fetched + [b], k, d)
  {
    if !(k in init && init[k].Stored? && init[k].payload == d) {
      var j :| 0 <= j < |calls| && j < |fetched| && fetched[j] && calls[j] == Call(k, FetchOk(d));
      assert (calls + [c])[j] == calls[j] && (fetched + [b])[j] == fetched[j];
    }
  }

  /** One call keeps every intact entry vouched for, and what it serves is
      vouched for by the calls up to and including itself. */
  lemma StepKeepsBacked(store: Store, init: Store, done: seq<Call>, fetched: seq<bool>, c: Call)
    requires |done| == |fetched|
    requires Backed(store, init, done, fetched)
    ensures var s := Retrieval(store, c.key, c.fetch);
            && Backed(s.after, init, done + [c], fetched + [s.downloaded])
            && (s.completion.success ==> Vouched(init, done + [c], fetched + [s.downloaded], c.key, s.completion.data))
  {
    var s := Retrieval(store, c.key, c.fetch);
    var done', fetched' := done + [c], fetched + [s.downloaded];
    assert done'[|done|] == c && fetched'[|done|] == s.downloaded;
    forall k | k in s.after && s.after[k].Stored?
      ensures Vouched(init, done', fetched', k, s.after[k].payload)
    {
      if !(k == c.key && s.downloaded && c.fetch.FetchOk?) {
        assert s.after[k] == store[k];
        VouchedGrows(init, done, fetched, c, s.downloaded, k, s.after[k].payload);
      }
    }
    if s.completion.success && !(s.downloaded && c.fetch.FetchOk?) {
      VouchedGrows(init, done, fetched, c, s.downloaded, c.key, s.completion.data);
    }
  }

  /** Taking the first element off and then `i` more is taking `i + 1`. */
  lemma PrefixAfterHead<T>(front: seq<T>, xs: seq<T>, i: nat)
    requires 0 < i < |xs|
    ensures front + [xs[0]] + xs[1..][..i] == front + xs[..i + 1]
  {
  }

  /** Starting from a backed storage, everything served is vouched for by
      the initial storage and the calls made up to and including its own. */
  lemma {:induction false} ServedIsVouchedFrom(init: Store, done: seq<Call>, fetched: seq<bool>, store: Store, rest: seq<Call>)
    requires |done| == |fetched|
    requires Backed(store, init, done, fetched)
    ensures var t := Run(store, rest);
            forall i :: 0 <= i < |rest| && t.completions[i].success ==>
              Vouched(init, done + rest[..i + 1], fetched + t.fetched[..i + 1], rest[i].key, t.completions[i].data)
    decreases |rest|
  {
    if rest != [] {
      var c := rest[0];
      var s := Retrieval(store, c.key, c.fetch);
      var tail := Run(s.after, rest[1..]);
      var t := Run(store, rest);
      assert t.completions == [s.completion] + tail.completions;
      assert t.fetched == [s.downloaded] + tail.fetched;
      StepKeepsBacked(store, init, done, fetched, c);
      ServedIsVouchedFrom(init, done + [c], fetched + [s.downloaded], s.after, rest[1..]);
      forall i | 0 <= i < |rest| && t.completions[i].success
        ensures Vouched(init, done + rest[..i + 1], fetched + t.fetched[..i + 1], rest[i].key, t.completions[i].data)
      {
        if i == 0 {
          assert rest[..1] == [c];
          assert t.fetched[..1] == [s.downloaded];
        } else {
          var calls', fetched' := done + [c] + rest[1..][..i], fetched + [s.downloaded] + tail.fetched[..i];
          assert tail.completions[i - 1].success;
          assert Vouched(init, calls', fetched', rest[1..][i - 1].key, tail.completions[i - 1].data);
          assert t.completions[i] == tail.completions[i - 1] && rest[1..][i - 1] == rest[i];
          PrefixAfterHead(done, rest, i);
          assert t.fetched[1..] == tail.fetched;
          PrefixAfterHead(fetched, t.fetched, i);
        }
      }
    }
  }

  /** Corrupted data is never served: whatever a sequence of calls serves
      was intact in the initial storage, or was produced for that key by a
      download that this call or an earlier one really made. */
  lemma ServedIsVouched(store: Store, calls: seq<Call>)
    ensures var t := Run(store, calls);
            forall i :: 0 <= i < |calls| && t.completions[i].success ==>
              Vouched(store, calls[..i + 1], t.fetched[..i + 1], calls[i].key, t.completions[i].data)
  {
    ServedIsVouchedFrom(store, [], [], store, calls);
  }
}
