/** Conservation: what a sync reports is exactly how the cached rows and bytes change. */
module Ledger {
  import opened Wrappers
  import opened Domain
  import opened Timestamps
  import opened Retention
  import opened Episodes
  import opened Download
  import opened World
  import opened Rows

  function Weight(r: Record): Tally {
    if r.state.Cached? then Tally(1, r.data.bytes.GetOr(0)) else Tally(0, 0)
  }

  function Plus(a: Tally, b: Tally): Tally {
    Tally(a.count + b.count, a.bytes + b.bytes)
  }

  lemma PlusSwap(r: Tally, a: Tally, b: Tally)
    ensures Plus(Plus(r, a), b) == Plus(Plus(r, b), a)
  {
  }

  ghost function Total(m: map<Key, Tally>): Tally
    decreases |m|
  {
    if m == map[] then Tally(0, 0)
    else
      var key :| key in m;
      Plus(Total(m - {key}), m[key])
  }

  lemma {:induction false} TotalPick(m: map<Key, Tally>, key: Key)
    requires key in m
    ensures Total(m) == Plus(Total(m - {key}), m[key])
    decreases |m|
  {
    var k :| k in m && Total(m) == Plus(Total(m - {k}), m[k]);
    if k != key {
      TotalPick(m - {k}, key);
      TotalPick(m - {key}, k);
      var rest := m - {k} - {key};
      assert rest == m - {key} - {k};
      assert Total(m - {k}) == Plus(Total(rest), m[key]);
      assert Total(m - {key}) == Plus(Total(rest), m[k]);
      PlusSwap(Total(rest), m[key], m[k]);
    }
  }

  lemma TotalUpdate(m: map<Key, Tally>, key: Key, v: Tally)
    ensures key in m ==> Plus(Total(m[key := v]), m[key]) == Plus(Total(m), v)
    ensures key !in m ==> Total(m[key := v]) == Plus(Total(m), v)
  {
    TotalPick(m[key := v], key);
    if key in m {
      TotalPick(m, key);
      assert m[key := v] - {key} == m - {key};
    } else {
      assert m[key := v] - {key} == m;
    }
  }

  ghost function Weights(t: Table): map<Key, Tally> {
    map key | key in t :: Weight(t[key])
  }

  /** Number and total size of the cached rows of a table. */
  ghost function CachedTally(t: Table): Tally {
    Total(Weights(t))
  }

  ghost predicate DiffersAt(t: Table, t': Table, key: Key) {
    t'.Keys == t.Keys + {key} && forall k :: k in t && k != key ==> t'[k] == t[k]
  }

  lemma WeightsUpdate(t: Table, t': Table, key: Key)
    requires DiffersAt(t, t', key)
    ensures Weights(t') == Weights(t)[key := Weight(t'[key])]
  {
    var a, b := Weights(t'), Weights(t)[key := Weight(t'[key])];
    assert a.Keys == b.Keys;
    forall k | k in a ensures a[k] == b[k] {
      if k != key { assert t'[k] == t[k]; }
    }
  }

  lemma TallyUpdate(t: Table, t': Table, key: Key)
    requires DiffersAt(t, t', key)
    ensures key in t ==> Plus(CachedTally(t'), Weight(t[key])) == Plus(CachedTally(t), Weight(t'[key]))
    ensures key !in t ==> CachedTally(t') == Plus(CachedTally(t), Weight(t'[key]))
  {
    WeightsUpdate(t, t', key);
    TotalUpdate(Weights(t), key, Weight(t'[key]));
  }

  /** A row that was not counted adds its new weight. */
  lemma TallyGain(t: Table, t': Table, key: Key)
    requires DiffersAt(t, t', key) && (key in t ==> Weight(t[key]) == Tally(0, 0))
    ensures CachedTally(t') == Plus(CachedTally(t), Weight(t'[key]))
  {
    WeightsUpdate(t, t', key);
    TotalUpdate(Weights(t), key, Weight(t'[key]));
  }

  /** A row that is no longer counted takes its weight away. */
  lemma TallyLoss(t: Table, t': Table, key: Key)
    requires key in t && DiffersAt(t, t', key) && Weight(t'[key]) == Tally(0, 0)
    ensures Plus(CachedTally(t'), Weight(t[key])) == CachedTally(t)
  {
    WeightsUpdate(t, t', key);
    TotalUpdate(Weights(t), key, Weight(t'[key]));
  }

  lemma TallySame(t: Table, t': Table, key: Key)
    requires DiffersAt(t, t', key)
    requires Weight(t'[key]) == if key in t then Weight(t[key]) else Tally(0, 0)
    ensures CachedTally(t') == CachedTally(t)
  {
    TallyUpdate(t, t', key);
  }

  lemma TallyCongruence(t: Table, t': Table)
    requires t.Keys == t'.Keys && forall key :: key in t ==> Weight(t[key]) == Weight(t'[key])
    ensures CachedTally(t) == CachedTally(t')
  {
    assert Weights(t) == Weights(t');
  }

  // ----- listing -----

  lemma DiscoverOneWeight(t: Table, show: ShowSlug, m: EpisodeMeta, now: Timestamp)
    ensures var key, t' := Key(show, m.id), DiscoverOne(t, show, m, now);
            DiffersAt(t, t', key) && Weight(t'[key]) == if key in t then Weight(t[key]) else Tally(0, 0)
  {
  }

  /** Healing and discovery move no cached row. */
  lemma {:induction false} DiscoverTally(t: Table, show: ShowSlug, listing: seq<EpisodeMeta>, now: Timestamp)
    ensures CachedTally(Discover(t, show, listing, now)) == CachedTally(t)
  {
    if listing != [] {
      var n := |listing| - 1;
      var before, after := Discover(t, show, listing[..n], now), Discover(t, show, listing, now);
      DiscoverTally(t, show, listing[..n], now);
      DiscoverOneWeight(before, show, listing[n], now);
      TallySame(before, after, Key(show, listing[n].id));
    }
  }

  lemma HealWeights(t: Table, show: ShowSlug, cutoff: Timestamp)
    ensures var t' := ResetStale(t, show, cutoff);
            t.Keys == t'.Keys && forall key :: key in t ==> Weight(t[key]) == Weight(t'[key])
  {
  }

  lemma ListedTally(t: Table, show: ShowSlug, up: Upstream)
    ensures CachedTally(Listed(t, show, up)) == CachedTally(t)
  {
    var healed := ResetStale(t, show, up.cutoff);
    HealWeights(t, show, up.cutoff);
    TallyCongruence(t, healed);
    if up.listing.Success? && up.listing.value.Modified? {
      DiscoverTally(healed, show, up.listing.value.episodes, up.now);
    }
  }

  // ----- downloading -----

  /** What an arriving episode adds. */
  function Gain(hash: Bytes -> Hash, key: Key, up: Upstream): Tally {
    var got := Fetched(hash, key, up);
    if got.Success? then Tally(1, Clamp(got.value.file.bytes)) else Tally(0, 0)
  }

  /** Number and total recorded size of the episodes of `ids` that arrive. */
  function Arrivals(hash: Bytes -> Hash, show: ShowSlug, ids: seq<EpisodeId>, up: Upstream): Tally {
    if ids == [] then Tally(0, 0)
    else
      var n := |ids| - 1;
      Plus(Arrivals(hash, show, ids[..n], up), Gain(hash, Key(show, ids[n]), up))
  }

  ghost predicate NoneCached(t: Table, show: ShowSlug, ids: seq<EpisodeId>) {
    forall id :: id in ids ==> !IsCached(t, Key(show, id))
  }

  /** Distinct pending rows arrive as often as a sync reports them downloaded. */
  lemma {:induction false} ArrivalsAreReported(
    hash: Bytes -> Hash, w: World, show: ShowSlug, ids: seq<EpisodeId>, up: Upstream)
    requires Distinct(ids) && AllPending(w.table, show, ids)
    ensures Arrivals(hash, show, ids, up).count == DownloadedCount(hash, w, show, ids, up)
  {
    if ids != [] {
      DownloadsStep(hash, w, show, ids, up);
      ArrivalsAreReported(hash, w, show, ids[..|ids| - 1], up);
      DownloadedStep(hash, w, show, ids, up);
    }
  }

  lemma DownloadsGain(hash: Bytes -> Hash, w: World, show: ShowSlug, ids: seq<EpisodeId>, up: Upstream)
    requires Distinct(ids) && AllPending(w.table, show, ids) && NoneCached(w.table, show, ids) && ids != []
    ensures var n := |ids| - 1;
            var key := Key(show, ids[n]);
            var t, t' := Downloads(hash, w, show, ids[..n], up).table, Downloads(hash, w, show, ids, up).table;
            && AllPending(w.table, show, ids[..n]) && Distinct(ids[..n]) && NoneCached(w.table, show, ids[..n])
            && DiffersAt(t, t', key) && key in t && Weight(t[key]) == Tally(0, 0) && Weight(t'[key]) == Gain(hash, key, up)
  {
    DownloadsStep(hash, w, show, ids, up);
    assert ids[|ids| - 1] in ids;
    assert forall id :: id in ids[..|ids| - 1] ==> id in ids;
  }

  lemma {:induction false} DownloadsTally(
    hash: Bytes -> Hash, w: World, show: ShowSlug, ids: seq<EpisodeId>, up: Upstream)
    requires Distinct(ids) && AllPending(w.table, show, ids) && NoneCached(w.table, show, ids)
    ensures CachedTally(Downloads(hash, w, show, ids, up).table) == Plus(CachedTally(w.table), Arrivals(hash, show, ids, up))
  {
    if ids != [] {
      var n := |ids| - 1;
      var t, t' := Downloads(hash, w, show, ids[..n], up).table, Downloads(hash, w, show, ids, up).table;
      DownloadsGain(hash, w, show, ids, up);
      DownloadsTally(hash, w, show, ids[..n], up);
      TallyGain(t, t', Key(show, ids[n]));
      PlusAssoc(CachedTally(w.table), Arrivals(hash, show, ids[..n], up), Gain(hash, Key(show, ids[n]), up));
    }
  }

  lemma PlusAssoc(a: Tally, b: Tally, c: Tally)
    ensures Plus(Plus(a, b), c) == Plus(a, Plus(b, c))
  {
  }

  // ----- pruning -----

  lemma PruneOneWeight(w: World, key: Key, up: Upstream)
    requires IsCached(w.table, key) && !Skipped(w.table, key, up)
    ensures var t, t' := w.table, PruneOne(w, key, up).table;
            DiffersAt(t, t', key) && Weight(t'[key]) == Tally(0, 0) && Weight(t[key]) == Tally(1, SizeOf(t, key))
  {
  }

  function FreedBy(t: Table, key: Key, up: Upstream): Tally {
    if Skipped(t, key, up) then Tally(0, 0) else Tally(1, SizeOf(t, key))
  }

  lemma PruneOneTally(w: World, key: Key, up: Upstream, after: World)
    requires IsCached(w.table, key) && after == PruneOne(w, key, up)
    ensures Plus(CachedTally(after.table), FreedBy(w.table, key, up)) == CachedTally(w.table)
  {
    if !Skipped(w.table, key, up) {
      PruneOneWeight(w, key, up);
      TallyLoss(w.table, after.table, key);
    }
  }

  lemma PruneLast(w: World, show: ShowSlug, ids: seq<EpisodeId>, up: Upstream)
    requires ids != [] && Distinct(ids) && AllCached(w.table, show, ids)
    ensures var n := |ids| - 1;
            var key, before := Key(show, ids[n]), Prune(w, show, ids[..n], up);
            && Distinct(ids[..n]) && AllCached(w.table, show, ids[..n]) && IsCached(before.table, key)
            && Prune(w, show, ids, up) == PruneOne(before, key, up)
            && PruneFreed(w, show, ids, up) == Plus(FreedBy(before.table, key, up), PruneFreed(w, show, ids[..n], up))
  {
    var n := |ids| - 1;
    assert ids == ids[..n] + [ids[n]];
    assert ids[n] in ids && ids[n] !in ids[..n];
    PruneRow(w, show, ids[..n], up, Key(show, ids[n]));
  }

  lemma {:induction false} PruneTally(w: World, show: ShowSlug, ids: seq<EpisodeId>, up: Upstream)
    requires Distinct(ids) && AllCached(w.table, show, ids)
    ensures Plus(CachedTally(Prune(w, show, ids, up).table), PruneFreed(w, show, ids, up)) == CachedTally(w.table)
  {
    if ids != [] {
      var n := |ids| - 1;
      PruneLast(w, show, ids, up);
      PruneTally(w, show, ids[..n], up);
      PruneOneTally(Prune(w, show, ids[..n], up), Key(show, ids[n]), up, Prune(w, show, ids, up));
      PlusChain(CachedTally(Prune(w, show, ids, up).table), FreedBy(Prune(w, show, ids[..n], up).table, Key(show, ids[n]), up),
                CachedTally(Prune(w, show, ids[..n], up).table), PruneFreed(w, show, ids[..n], up));
    }
  }

  lemma PlusChain(a: Tally, b: Tally, ab: Tally, c: Tally)
    requires Plus(a, b) == ab
    ensures Plus(a, Plus(b, c)) == Plus(ab, c)
  {
  }

  /** For a completed sync over a listing without repeated ids: cached rows after equal cached
      rows before plus downloaded minus pruned, and cached bytes after equal cached bytes
      before plus the bytes that arrived minus the bytes freed. Files that could not be
      deleted count as neither pruned nor freed. */
  lemma SyncConserves(
    hash: Bytes -> Hash, w: World, show: ShowSlug, policy: Policy, limit: Option<nat>, up: Upstream)
    requires ListsShow(up) && Distinct(Window(w.table, show, limit, up))
    ensures var window := Window(w.table, show, limit, up);
            var listed := World(Listed(w.table, show, up), w.files);
            var arrived := Arrivals(hash, show, Pending(listed.table, show, policy, window), up);
            && Plus(CachedTally(Synced(hash, w, show, policy, limit, up).table), SettleFreed(hash, listed, show, policy, window, up))
               == Plus(CachedTally(w.table), arrived)
            && arrived.count == SettleDownloaded(hash, listed, show, policy, window, up)
  {
    ListedTally(w.table, show, up);
    SettleConserves(hash, World(Listed(w.table, show, up), w.files), show, policy, Window(w.table, show, limit, up), up);
  }

  lemma SettleConserves(
    hash: Bytes -> Hash, w: World, show: ShowSlug, policy: Policy, window: seq<EpisodeId>, up: Upstream)
    requires Distinct(window)
    ensures var arrived := Arrivals(hash, show, Pending(w.table, show, policy, window), up);
            && Plus(CachedTally(Settle(hash, w, show, policy, window, up).table), SettleFreed(hash, w, show, policy, window, up))
               == Plus(CachedTally(w.table), arrived)
            && arrived.count == SettleDownloaded(hash, w, show, policy, window, up)
  {
    var pending := Pending(w.table, show, policy, window);
    var fetched := Downloads(hash, w, show, pending, up);
    PendingMembers(w.table, show, policy, window);
    DownloadsTally(hash, w, show, pending, up);
    ArrivalsAreReported(hash, w, show, pending, up);
    PlanMembers(fetched.table, show, policy);
    PruneTally(fetched, show, PrunePlan(fetched.table, show, policy), up);
  }

  // ----- repeated ids -----

  ghost predicate AllFetchable(t: Table, show: ShowSlug, ids: seq<EpisodeId>) {
    forall id :: id in ids ==> IsPending(t, Key(show, id))
  }

  /** The entries of `ids` whose audio arrives. */
  function Arrived(hash: Bytes -> Hash, show: ShowSlug, ids: seq<EpisodeId>, up: Upstream): seq<EpisodeId> {
    if ids == [] then []
    else
      var n := |ids| - 1;
      Arrived(hash, show, ids[..n], up) + if Fetched(hash, Key(show, ids[n]), up).Success? then [ids[n]] else []
  }

  lemma {:induction false} RepeatedRow(
    hash: Bytes -> Hash, w: World, show: ShowSlug, ids: seq<EpisodeId>, up: Upstream, id: EpisodeId)
    requires AllFetchable(w.table, show, ids) && IsPending(w.table, Key(show, id))
    ensures var key, t := Key(show, id), Downloads(hash, w, show, ids, up).table;
            && Allowed(t, key, Downloading)
            && (IsCached(t, key) <==> id in Arrived(hash, show, ids, up))
    ensures id in Arrived(hash, show, ids, up) <==> id in ids && Fetched(hash, Key(show, id), up).Success?
  {
    if ids != [] {
      var n := |ids| - 1;
      assert ids == ids[..n] + [ids[n]];
      assert forall x :: x in ids[..n] ==> x in ids;
      assert ids[n] in ids;
      RepeatedRow(hash, w, show, ids[..n], up, id);
      RepeatedRow(hash, w, show, ids[..n], up, ids[n]);
      DownloadOneRow(hash, Downloads(hash, w, show, ids[..n], up), Key(show, ids[n]), up);
    }
  }

  lemma RepeatedStep(hash: Bytes -> Hash, w: World, key: Key, up: Upstream)
    requires Allowed(w.table, key, Downloading)
    ensures CachedTally(DownloadOne(hash, w, key, up).table).count + (if IsCached(w.table, key) then 1 else 0)
            == CachedTally(w.table).count + if Fetched(hash, key, up).Success? then 1 else 0
  {
    DownloadOneRow(hash, w, key, up);
    TallyUpdate(w.table, DownloadOne(hash, w, key, up).table, key);
  }

  lemma DistinctStep(a: seq<EpisodeId>, id: EpisodeId)
    ensures Distinct(a + [id]) <==> Distinct(a) && id !in a
  {
    var b := a + [id];
    if Distinct(b) {
      forall i, j | 0 <= i < j < |a| ensures a[i] != a[j] { assert b[i] != b[j]; }
      forall i | 0 <= i < |a| ensures a[i] != id { assert b[i] != b[|a|]; }
    }
  }

  /** With repeated ids in the listing the report may exceed the growth of the cache: the rows
      count each arriving id once, the report each time. They agree exactly when no id that
      arrives is listed twice. */
  lemma {:induction false} RepeatedCount(
    hash: Bytes -> Hash, w: World, show: ShowSlug, ids: seq<EpisodeId>, up: Upstream)
    requires AllFetchable(w.table, show, ids)
    ensures var grown := CachedTally(Downloads(hash, w, show, ids, up).table).count - CachedTally(w.table).count;
            && 0 <= grown <= DownloadedCount(hash, w, show, ids, up)
            && (grown == DownloadedCount(hash, w, show, ids, up) <==> Distinct(Arrived(hash, show, ids, up)))
  {
    if ids != [] {
      var n := |ids| - 1;
      assert ids == ids[..n] + [ids[n]];
      assert forall x :: x in ids[..n] ==> x in ids;
      assert ids[n] in ids;
      RepeatedCount(hash, w, show, ids[..n], up);
      RepeatedRow(hash, w, show, ids[..n], up, ids[n]);
      RepeatedStep(hash, Downloads(hash, w, show, ids[..n], up), Key(show, ids[n]), up);
      DistinctStep(Arrived(hash, show, ids[..n], up), ids[n]);
      assert Arrived(hash, show, ids, up) ==
        if Fetched(hash, Key(show, ids[n]), up).Success? then Arrived(hash, show, ids[..n], up) + [ids[n]]
        else Arrived(hash, show, ids[..n], up);
    }
  }
}
