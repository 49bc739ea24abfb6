/** Whole syncs repeated against an unchanged listing. */
module Resync {
  import opened Wrappers
  import opened Domain
  import opened Timestamps
  import opened Retention
  import opened Episodes
  import opened Download
  import opened World
  import opened Rows
  import opened Convergence

  // ----- when the window is a prefix of the stored order -----

  lemma BoundedIsPrefix<T>(s: seq<T>, limit: Option<nat>)
    ensures Bounded(s, limit) <= s
  {
  }

  /** When nothing changed upstream the window is a prefix of the stored order, whatever the
      rows look like; so by NeverFetchToPrune such a sync prunes nothing it has just fetched. */
  lemma UnchangedNeverFetchesToPrune(
    hash: Bytes -> Hash, w: World, show: ShowSlug, n: nat, limit: Option<nat>, up: Upstream, id: EpisodeId)
    requires up.listing == Success(NotModified)
    requires id in Pending(Listed(w.table, show, up), show, Policy(Some(n), None), Window(w.table, show, limit, up))
    ensures var policy, listed := Policy(Some(n), None), World(Listed(w.table, show, up), w.files);
            var pending := Pending(listed.table, show, policy, Window(w.table, show, limit, up));
            id !in PrunePlan(Downloads(hash, listed, show, pending, up).table, show, policy)
  {
    var listed := World(Listed(w.table, show, up), w.files);
    BoundedIsPrefix(Ordered(listed.table, show), limit);
    NeverFetchToPrune(hash, listed, show, n, Window(w.table, show, limit, up), up, id);
  }

  // ----- an absorbed listing -----

  /** Recording the listing again would change nothing. */
  ghost predicate Absorbed(t: Table, show: ShowSlug, listing: seq<EpisodeMeta>) {
    forall i :: 0 <= i < |listing| ==> AbsorbedRow(t, show, listing[i])
  }

  predicate AbsorbedRow(t: Table, show: ShowSlug, m: EpisodeMeta) {
    Key(show, m.id) in t && Refreshed(t[Key(show, m.id)].data, m) == t[Key(show, m.id)].data
  }

  lemma {:induction false} AbsorbedChangesNothing(t: Table, show: ShowSlug, listing: seq<EpisodeMeta>, now: Timestamp)
    requires Absorbed(t, show, listing)
    ensures Discover(t, show, listing, now) == t
  {
    if listing != [] {
      var n := |listing| - 1;
      assert forall i :: 0 <= i < n ==> listing[..n][i] == listing[i];
      AbsorbedChangesNothing(t, show, listing[..n], now);
      assert AbsorbedRow(t, show, listing[n]);
    }
  }

  /** A listing without repeated ids is absorbed by being recorded once. */
  lemma {:induction false} DiscoverAbsorbs(t: Table, show: ShowSlug, listing: seq<EpisodeMeta>, now: Timestamp)
    requires Distinct(ListedIds(listing))
    ensures Absorbed(Discover(t, show, listing, now), show, listing)
  {
    if listing != [] {
      var n := |listing| - 1;
      var ids := ListedIds(listing);
      assert ListedIds(listing[..n]) == ids[..n];
      DiscoverAbsorbs(t, show, listing[..n], now);
      forall i | 0 <= i < |listing| ensures AbsorbedRow(Discover(t, show, listing, now), show, listing[i]) {
        if i < n {
          assert ids[i] != ids[n];
          assert AbsorbedRow(Discover(t, show, listing[..n], now), show, listing[..n][i]);
        }
      }
    }
  }

  /** The columns a listing writes, up to a duration learnt in between. */
  predicate SameListing(a: Columns, b: Columns) {
    && a.title == b.title && a.description == b.description && a.publishedAt == b.publishedAt
    && (a.durationSecs.Some? ==> b.durationSecs == a.durationSecs)
  }

  lemma SettleKeepsListing(
    hash: Bytes -> Hash, w: World, show: ShowSlug, policy: Policy, window: seq<EpisodeId>, up: Upstream, key: Key)
    requires WindowIsPrefix(w.table, show, window) && key in w.table
    ensures var t' := Settle(hash, w, show, policy, window, up).table;
            key in t' && SameListing(w.table[key].data, t'[key].data)
  {
    var pending, w' := Pending(w.table, show, policy, window), Fetching(hash, w, show, policy, window, up);
    WindowRows(w.table, show, window);
    PendingMembers(w.table, show, policy, window);
    DownloadRow(hash, w, show, pending, up, key);
    PlanMembers(w'.table, show, policy);
    PruneRow(w', show, PrunePlan(w'.table, show, policy), up, key);
  }

  lemma SettleKeepsAbsorbed(
    hash: Bytes -> Hash, w: World, show: ShowSlug, policy: Policy, window: seq<EpisodeId>, up: Upstream, listing: seq<EpisodeMeta>)
    requires WindowIsPrefix(w.table, show, window) && Absorbed(w.table, show, listing)
    ensures Absorbed(Settle(hash, w, show, policy, window, up).table, show, listing)
  {
    forall i | 0 <= i < |listing|
      ensures AbsorbedRow(Settle(hash, w, show, policy, window, up).table, show, listing[i])
    {
      assert AbsorbedRow(w.table, show, listing[i]);
      SettleKeepsListing(hash, w, show, policy, window, up, Key(show, listing[i].id));
    }
  }

  // ----- one sync against an unchanged listing -----

  /** The upstream answers "not modified", or lists again what the table already holds. */
  ghost predicate Unchanged(t: Table, show: ShowSlug, listing: Listing) {
    listing.Modified? ==> Absorbed(t, show, listing.episodes)
  }

  /** The window such a sync works on. */
  ghost function SteadyWindow(t: Table, show: ShowSlug, limit: Option<nat>, listing: Listing): seq<EpisodeId> {
    if listing.Modified? then ListedIds(listing.episodes) else Bounded(Ordered(t, show), limit)
  }

  predicate Answers(up: Upstream, listing: Listing) {
    up.listing == Success(listing) && (listing.Modified? ==> up.meta.Success?)
  }

  lemma HealChangesNothing(t: Table, show: ShowSlug, cutoff: Timestamp)
    requires forall id: EpisodeId :: Key(show, id) in t ==> !t[Key(show, id)].state.Downloading?
    ensures ResetStale(t, show, cutoff) == t
  {
    forall key | key in t ensures ResetStale(t, show, cutoff)[key] == t[key] {
      assert key.show == show ==> key == Key(show, key.id);
    }
  }

  /** With nothing left downloading and nothing new upstream, a sync is just its settling part. */
  lemma UnchangedSyncSettles(
    hash: Bytes -> Hash, w: World, show: ShowSlug, policy: Policy, limit: Option<nat>, listing: Listing, up: Upstream)
    requires forall id: EpisodeId :: Key(show, id) in w.table ==> !w.table[Key(show, id)].state.Downloading?
    requires Unchanged(w.table, show, listing) && Answers(up, listing)
    ensures Listed(w.table, show, up) == w.table
    ensures Window(w.table, show, limit, up) == SteadyWindow(w.table, show, limit, listing)
    ensures Synced(hash, w, show, policy, limit, up)
            == Settle(hash, w, show, policy, SteadyWindow(w.table, show, limit, listing), up)
  {
    HealChangesNothing(w.table, show, up.cutoff);
    if listing.Modified? { AbsorbedChangesNothing(w.table, show, listing.episodes, up.now); }
    assert World(w.table, w.files) == w;
  }

  // ----- repeated syncs -----

  /** A sync whose report counts a download or a pruning. */
  ghost predicate SyncActive(hash: Bytes -> Hash, w: World, show: ShowSlug, policy: Policy, limit: Option<nat>, up: Upstream) {
    && ListsShow(up)
    && Active(hash, World(Listed(w.table, show, up), w.files), show, policy, Window(w.table, show, limit, up), up)
  }

  ghost function ActiveSyncs(
    hash: Bytes -> Hash, w: World, show: ShowSlug, policy: Policy, limit: Option<nat>, ups: seq<Upstream>): nat
    decreases |ups|
  {
    if ups == [] then 0
    else
      (if SyncActive(hash, w, show, policy, limit, ups[0]) then 1 else 0)
      + ActiveSyncs(hash, Synced(hash, w, show, policy, limit, ups[0]), show, policy, limit, ups[1..])
  }

  /** All the syncs see the same listing, get all the audio they ask for with the sizes `size`,
      and can delete every file. */
  ghost predicate Favourable(
    hash: Bytes -> Hash, show: ShowSlug, window: seq<EpisodeId>, size: EpisodeId -> nat, listing: Listing, ups: seq<Upstream>)
  {
    forall i :: 0 <= i < |ups| ==> Answers(ups[i], listing) && Cooperates(hash, show, window, size, ups[i])
  }

  lemma NextSync(
    hash: Bytes -> Hash, w: World, show: ShowSlug, policy: Policy, limit: Option<nat>, listing: Listing,
    size: EpisodeId -> nat, up: Upstream)
    requires Unchanged(w.table, show, listing) && Answers(up, listing)
    requires Steady(w.table, show, SteadyWindow(w.table, show, limit, listing), size)
    requires Cooperates(hash, show, SteadyWindow(w.table, show, limit, listing), size, up)
    ensures var t' := Synced(hash, w, show, policy, limit, up).table;
            && Unchanged(t', show, listing)
            && SteadyWindow(t', show, limit, listing) == SteadyWindow(w.table, show, limit, listing)
            && Steady(t', show, SteadyWindow(w.table, show, limit, listing), size)
  {
    var window := SteadyWindow(w.table, show, limit, listing);
    UnchangedSyncSettles(hash, w, show, policy, limit, listing, up);
    SettleOrder(hash, w, show, policy, window, up);
    SettleKeepsSteady(hash, w, show, policy, window, size, up);
    if listing.Modified? { SettleKeepsAbsorbed(hash, w, show, policy, window, up, listing.episodes); }
  }

  /** A sync is active exactly when its settling part is. */
  lemma SyncActiveSettles(
    hash: Bytes -> Hash, w: World, show: ShowSlug, policy: Policy, limit: Option<nat>, listing: Listing, up: Upstream)
    requires forall id: EpisodeId :: Key(show, id) in w.table ==> !w.table[Key(show, id)].state.Downloading?
    requires Unchanged(w.table, show, listing) && Answers(up, listing)
    ensures SyncActive(hash, w, show, policy, limit, up)
            <==> Active(hash, w, show, policy, SteadyWindow(w.table, show, limit, listing), up)
  {
    UnchangedSyncSettles(hash, w, show, policy, limit, listing, up);
    assert World(w.table, w.files) == w;
  }

  lemma {:induction false} SyncsAreSettles(
    hash: Bytes -> Hash, w: World, show: ShowSlug, policy: Policy, limit: Option<nat>, listing: Listing,
    size: EpisodeId -> nat, ups: seq<Upstream>)
    requires Unchanged(w.table, show, listing)
    requires Steady(w.table, show, SteadyWindow(w.table, show, limit, listing), size)
    requires Favourable(hash, show, SteadyWindow(w.table, show, limit, listing), size, listing, ups)
    ensures ActiveSyncs(hash, w, show, policy, limit, ups)
            == ActiveCount(hash, w, show, policy, SteadyWindow(w.table, show, limit, listing), ups)
    decreases |ups|
  {
    if ups == [] {
      assert ActiveSyncs(hash, w, show, policy, limit, ups) == 0;
    } else {
      var w' := Synced(hash, w, show, policy, limit, ups[0]);
      SyncActiveSettles(hash, w, show, policy, limit, listing, ups[0]);
      UnchangedSyncSettles(hash, w, show, policy, limit, listing, ups[0]);
      NextSync(hash, w, show, policy, limit, listing, size, ups[0]);
      SyncsAreSettles(hash, w', show, policy, limit, listing, size, ups[1..]);
    }
  }

  /** However often a show is synced against an unchanged listing and a cooperative upstream, at
      most U + 1 of the syncs download or prune anything, where U is the number of window rows
      whose size is not recorded. */
  lemma {:induction false} RepeatedSyncsConverge(
    hash: Bytes -> Hash, w: World, show: ShowSlug, policy: Policy, limit: Option<nat>, listing: Listing,
    size: EpisodeId -> nat, ups: seq<Upstream>)
    requires Unchanged(w.table, show, listing)
    requires Steady(w.table, show, SteadyWindow(w.table, show, limit, listing), size)
    requires Favourable(hash, show, SteadyWindow(w.table, show, limit, listing), size, listing, ups)
    ensures ActiveSyncs(hash, w, show, policy, limit, ups)
            <= |Unknown(w.table, show, SteadyWindow(w.table, show, limit, listing))| + 1
  {
    SyncsAreSettles(hash, w, show, policy, limit, listing, size, ups);
    SyncsConverge(hash, w, show, policy, SteadyWindow(w.table, show, limit, listing), size, ups);
  }

  /** After a sync that wants no episode of unknown size, the next one changes nothing at all,
      even when by then the upstream has stopped cooperating. */
  lemma SettledSyncIsNoop(
    hash: Bytes -> Hash, w: World, show: ShowSlug, policy: Policy, limit: Option<nat>, listing: Listing,
    size: EpisodeId -> nat, up: Upstream, next: Upstream)
    requires Unchanged(w.table, show, listing) && Answers(up, listing) && Answers(next, listing)
    requires Steady(w.table, show, SteadyWindow(w.table, show, limit, listing), size)
    requires Cooperates(hash, show, SteadyWindow(w.table, show, limit, listing), size, up)
    requires WantsKnown(w.table, show, policy, SteadyWindow(w.table, show, limit, listing))
    ensures var w' := Synced(hash, w, show, policy, limit, up);
            Synced(hash, w', show, policy, limit, next) == w' && !SyncActive(hash, w', show, policy, limit, next)
  {
    var window, w' := SteadyWindow(w.table, show, limit, listing), Synced(hash, w, show, policy, limit, up);
    UnchangedSyncSettles(hash, w, show, policy, limit, listing, up);
    KnownSizesSettle(hash, w, show, policy, window, size, up);
    NextSync(hash, w, show, policy, limit, listing, size, up);
    UnchangedSyncSettles(hash, w', show, policy, limit, listing, next);
    QuietSyncIsNoop(hash, w', show, policy, window, next);
    assert World(w'.table, w'.files) == w';
  }
}
