/** What a completed sync promises in numbers: the show's cache is within its policy, no more was
    fetched than asked for, and the rows that are new are counted. */
module Limits {
  import opened Wrappers
  import opened Domain
  import opened Timestamps
  import opened Retention
  import opened Episodes
  import opened Download
  import opened World
  import opened Rows
  import opened Agreement
  import opened Convergence

  // ----- the cache is within the policy -----

  /** The bytes the cached rows of a show take by their records. */
  ghost function CachedBytes(t: Table, show: ShowSlug): nat {
    Retention.Bytes(CachedCandidates(t, show))
  }

  lemma PruneFrame(w: World, show: ShowSlug, policy: Policy, up: Upstream, id: EpisodeId)
    requires forall p: Path :: !up.refuses(p)
    ensures var key, t, t' := Key(show, id), w.table, Prune(w, show, PrunePlan(w.table, show, policy), up).table;
            && (key in t' <==> key in t)
            && (key in t ==> t'[key].data.publishedAt == t[key].data.publishedAt)
            && SizeOf(t', key) == SizeOf(t, key)
            && (IsCached(t', key) <==> IsCached(t, key) && id in Ids(Kept(policy, CachedCandidates(t, show))))
  {
    PlanMembers(w.table, show, policy);
    PruneRow(w, show, PrunePlan(w.table, show, policy), up, Key(show, id));
    CachedMembers(w.table, show);
    KeptIds(policy, CachedCandidates(w.table, show));
  }

  /** When every file can be deleted, what is cached after the pruning is what the policy keeps. */
  lemma PruneKeeps(w: World, show: ShowSlug, policy: Policy, up: Upstream)
    requires forall p: Path :: !up.refuses(p)
    ensures CachedCandidates(Prune(w, show, PrunePlan(w.table, show, policy), up).table, show)
            == Kept(policy, CachedCandidates(w.table, show))
  {
    var t, t' := w.table, Prune(w, show, PrunePlan(w.table, show, policy), up).table;
    forall id: EpisodeId
      ensures Key(show, id) in t' <==> Key(show, id) in t
      ensures Key(show, id) in t ==> t'[Key(show, id)].data.publishedAt == t[Key(show, id)].data.publishedAt
      ensures SizeOf(t', Key(show, id)) == SizeOf(t, Key(show, id))
      ensures IsCached(t', Key(show, id)) <==> IsCached(t, Key(show, id)) && id in Ids(Kept(policy, CachedCandidates(t, show)))
    {
      PruneFrame(w, show, policy, up, id);
    }
    OrderedFrame(t, t', show);
    SurvivorsAreKept(t, t', show, policy);
  }

  /** After a completed sync with every file deletable the show has at most as many cached rows as the
      count limit says, and unless it is a single one they fit the byte cap. */
  lemma SyncedWithinPolicy(
    hash: Bytes -> Hash, w: World, show: ShowSlug, policy: Policy, limit: Option<nat>, up: Upstream)
    requires ListsShow(up) && forall p: Path :: !up.refuses(p)
    ensures var t := Synced(hash, w, show, policy, limit, up).table;
            && (policy.keepLast.Some? ==> |CachedInOrder(t, show)| <= policy.keepLast.value)
            && (policy.maxBytes.Some? ==> |CachedInOrder(t, show)| <= 1 || CachedBytes(t, show) <= policy.maxBytes.value)
  {
    var listed := World(Listed(w.table, show, up), w.files);
    var mid := Downloads(hash, listed, show, Pending(listed.table, show, policy, Window(w.table, show, limit, up)), up);
    PruneKeeps(mid, show, policy, up);
    KeptFeasible(policy, CachedCandidates(mid.table, show));
    CachedMembers(Synced(hash, w, show, policy, limit, up).table, show);
  }

  /** What the downloads left within the limits is not pruned: neither limit reaches below itself. */
  lemma WithinPolicyNothingGoes(w: World, show: ShowSlug, policy: Policy, up: Upstream)
    requires policy.keepLast.Some? ==> |CachedInOrder(w.table, show)| <= policy.keepLast.value
    requires policy.maxBytes.Some? ==> |CachedInOrder(w.table, show)| <= 1 || CachedBytes(w.table, show) <= policy.maxBytes.value
    ensures Prune(w, show, PrunePlan(w.table, show, policy), up) == w
  {
    var cs := CachedCandidates(w.table, show);
    CachedMembers(w.table, show);
    FeasibleKeepsAll(policy, cs);
    SplitPartitions(policy, cs);
    NothingLeft(policy, cs);
  }

  lemma NothingLeft(policy: Policy, cs: seq<Candidate>)
    requires Kept(policy, cs) == cs
    ensures Reversed(Ids(Doomed(policy, cs))) == []
  {
    SelectPartition(cs, Choice(policy, cs));
    assert |multiset(cs)| == |cs|;
    assert |multiset(Kept(policy, cs)) + multiset(Doomed(policy, cs))| == |Kept(policy, cs)| + |Doomed(policy, cs)|;
  }

  // ----- no more is fetched than asked for -----

  /** When upstream has nothing new, the window is the newest rows, as many as asked for. */
  lemma UnchangedWindow(t: Table, show: ShowSlug, limit: Option<nat>, up: Upstream)
    requires up.listing == Success(NotModified)
    ensures var all := Ordered(Listed(t, show, up), show);
            Window(t, show, limit, up) == if limit.Some? && limit.value < |all| then all[..limit.value] else all
  {
  }

  lemma {:induction false} CountAtMost(hash: Bytes -> Hash, w: World, show: ShowSlug, ids: seq<EpisodeId>, up: Upstream)
    ensures DownloadedCount(hash, w, show, ids, up) <= |ids|
  {
    if ids != [] { CountAtMost(hash, w, show, ids[..|ids| - 1], up); }
  }

  /** A sync that is told nothing is new downloads at most as many episodes as asked for. */
  lemma UnchangedFetchesAtMost(
    hash: Bytes -> Hash, w: World, show: ShowSlug, policy: Policy, n: nat, up: Upstream)
    requires up.listing == Success(NotModified)
    ensures SettleDownloaded(hash, World(Listed(w.table, show, up), w.files), show, policy, Window(w.table, show, Some(n), up), up) <= n
  {
    var listed, window := World(Listed(w.table, show, up), w.files), Window(w.table, show, Some(n), up);
    UnchangedWindow(w.table, show, Some(n), up);
    OnlyLength(window, Wanted(listed.table, show, policy, window) * PendingIds(listed.table, show, window));
    CountAtMost(hash, listed, show, Pending(listed.table, show, policy, window), up);
  }

  // ----- new rows are counted -----

  lemma {:induction false} DiscoverGrows(t: Table, show: ShowSlug, listing: seq<EpisodeMeta>, now: Timestamp)
    ensures |Discover(t, show, listing, now)| == |t| + |News(t, show, listing, now)|
  {
    if listing != [] { DiscoverGrows(t, show, listing[..|listing| - 1], now); }
  }

  lemma SameKeysSameSize(t: Table, t': Table)
    requires t.Keys == t'.Keys
    ensures |t| == |t'|
  {
    assert |t.Keys| == |t| && |t'.Keys| == |t'|;
  }

  /** The rows reported as new are the rows by which the table grew. */
  lemma ReportedIsGrowth(hash: Bytes -> Hash, w: World, show: ShowSlug, policy: Policy, limit: Option<nat>, up: Upstream)
    ensures |Synced(hash, w, show, policy, limit, up).table| == |w.table| + DiscoveredCount(w.table, show, up)
  {
    var healed, listed := ResetStale(w.table, show, up.cutoff), Listed(w.table, show, up);
    SameKeysSameSize(w.table, healed);
    if up.listing.Success? && up.listing.value.Modified? { DiscoverGrows(healed, show, up.listing.value.episodes, up.now); }
    if ListsShow(up) {
      SyncedKeys(hash, World(listed, w.files), show, policy, Window(w.table, show, limit, up), up);
      SameKeysSameSize(listed, Synced(hash, w, show, policy, limit, up).table);
    }
  }

  // ----- which class a failure gets -----

  /** A failed fetch is of class http-status exactly when somebody answered with a bad status or does
      not know the show, of class parse exactly when the answer made no sense or named no audio, of
      class disk exactly when a local file step failed, and of class network otherwise. */
  lemma FailureClassExactly(hash: Bytes -> Hash, key: Key, up: Upstream)
    requires Fetched(hash, key, up).Failure?
    ensures up.resolve(key.id).Failure? ==>
              var (e, c) := (up.resolve(key.id).error, Fetched(hash, key, up).error);
              && (c.HttpStatus? <==> e.BadStatus? || e.ShowNotFound?)
              && (c.Parse? <==> e.Unparseable? || e.NoAudioAsset?)
              && (c.Network? <==> e.Http? || e.UnknownProvider? || e.MissingCredentials?)
    ensures up.resolve(key.id).Success? ==>
              var r := FetchResult(hash, up.resolve(key.id).value, up.exchanges(key.id));
              var c := Fetched(hash, key, up).error;
              && r.Failure?
              && (c.HttpStatus? <==> r.error.Status?)
              && (c.Disk? <==> r.error.DiskFailure?)
              && (c.Network? <==> r.error.NetworkFailure? || r.error.Truncated? || r.error.ClientFailure?)
  {
  }

  /** A process that dies between starting a download and its first report leaves a row that the next
      heal of its show makes pending again. */
  lemma DeadStartIsPending(t: Table, ops: seq<Op>, key: Key, cutoff: Timestamp)
    requires Allowed(t, key, Downloading) && forall i :: 0 <= i < |ops| ==> !Continues(ops[i], key)
    ensures IsPending(ResetStale(Run(MarkDownloading(t, key), ops), key.show, cutoff), key)
  {
    DeadStartIsHealed(t, ops, key, cutoff);
  }
}
