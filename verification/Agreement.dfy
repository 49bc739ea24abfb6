/** The database and the disk agree: over every run of syncs and repairs, each cached row's
    file exists with exactly the recorded size and hash. */
module Agreement {
  import opened Wrappers
  import opened Domain
  import opened Retention
  import opened Episodes
  import opened Media
  import opened Download
  import opened World
  import opened Rows

  // ----- the invariant -----

  /** The row's file is there, at one of the row's own paths, as recorded. */
  ghost predicate FileOk(hash: Bytes -> Hash, files: Files, key: Key, c: Columns) {
    && c.filePath.Some? && Owns(key, c.filePath.value)
    && c.filePath.value in files
    && c.bytes == Some(|files[c.filePath.value]|)
    && c.blake3 == Some(hash(files[c.filePath.value]))
  }

  ghost predicate RowAgrees(hash: Bytes -> Hash, w: World, key: Key) {
    IsCached(w.table, key) ==> FileOk(hash, w.files, key, w.table[key].data)
  }

  /** Every path a row records, cached or left over, is one of its own. */
  ghost predicate RowPlaced(t: Table, key: Key) {
    key in t && t[key].data.filePath.Some? ==> Owns(key, t[key].data.filePath.value)
  }

  ghost predicate Agrees(hash: Bytes -> Hash, w: World) {
    forall key: Key :: RowAgrees(hash, w, key) && RowPlaced(w.table, key)
  }

  /** The row is cached, but its file is gone: a pruning got no further than the deletion. */
  ghost predicate RowGapped(w: World, key: Key) {
    IsCached(w.table, key) && w.table[key].data.filePath.Some? && w.table[key].data.filePath.value !in w.files
  }

  ghost predicate RowStatus(hash: Bytes -> Hash, w: World, key: Key, gap: bool) {
    RowPlaced(w.table, key) && if gap then RowGapped(w, key) else RowAgrees(hash, w, key)
  }

  /** All rows agree with the disk except those of `gaps`, whose files are gone. */
  ghost predicate AgreesBut(hash: Bytes -> Hash, w: World, gaps: set<Key>) {
    forall key: Key :: RowStatus(hash, w, key, key in gaps)
  }

  lemma NoGaps(hash: Bytes -> Hash, w: World)
    ensures AgreesBut(hash, w, {}) <==> Agrees(hash, w)
  {
    var gaps: set<Key> := {};
    if AgreesBut(hash, w, gaps) {
      forall key: Key ensures RowAgrees(hash, w, key) && RowPlaced(w.table, key) {
        assert RowStatus(hash, w, key, key in gaps);
      }
    }
  }

  /** Where the database and the disk agree but for `gaps`, a row disagrees exactly when it is
      one of them. */
  lemma GapsDisagree(hash: Bytes -> Hash, w: World, gaps: set<Key>, key: Key)
    requires AgreesBut(hash, w, gaps)
    ensures RowAgrees(hash, w, key) <==> key !in gaps
  {
    assert RowStatus(hash, w, key, key in gaps);
  }

  /** No two episodes of a show differ only in characters the stem replaces. */
  ghost predicate StemsApart(t: Table) {
    forall a, b :: a in t && b in t && a.show == b.show && Stem(a.id) == Stem(b.id) ==> a == b
  }

  /** Bodies are small enough for the size column. */
  ghost predicate Storable(hash: Bytes -> Hash, up: Upstream) {
    forall key: Key :: Fetched(hash, key, up).Success? ==> |Fetched(hash, key, up).value.body| <= MAX_INTEGER
  }

  /** A path belongs to at most one row. */
  lemma PathHasOneOwner(t: Table, a: Key, b: Key, p: Path)
    requires StemsApart(t) && a in t && b in t && Owns(a, p) && Owns(b, p)
    ensures a == b
  {
    OwnersShareStem(a, b, p);
  }

  /** Two cached rows never share a file. */
  lemma CachedFilesAreSeparate(hash: Bytes -> Hash, w: World, a: Key, b: Key)
    requires Agrees(hash, w) && StemsApart(w.table) && a != b
    requires IsCached(w.table, a) && IsCached(w.table, b)
    ensures w.table[a].data.filePath != w.table[b].data.filePath
  {
    assert RowAgrees(hash, w, a) && RowAgrees(hash, w, b);
    if w.table[a].data.filePath == w.table[b].data.filePath {
      PathHasOneOwner(w.table, a, b, w.table[a].data.filePath.value);
    }
  }

  // ----- one download -----

  lemma FetchedAgrees(hash: Bytes -> Hash, files: Files, r: Record, key: Key, up: Upstream)
    requires Fetched(hash, key, up).Success? && Storable(hash, up)
    ensures var got := Fetched(hash, key, up).value;
            FileOk(hash, files[got.file.filePath := got.body], key, RowAfter(hash, r, key, up).data)
  {
    FetchedFile(hash, key, up);
  }

  /** Downloading one episode disturbs no other row. */
  lemma DownloadOneOthers(hash: Bytes -> Hash, w: World, key: Key, up: Upstream, other: Key, gap: bool)
    requires StemsApart(w.table) && RowStatus(hash, w, other, gap) && other != key
    ensures RowStatus(hash, DownloadOne(hash, w, key, up), other, gap)
  {
    if Allowed(w.table, key, Downloading) && IsCached(w.table, other) {
      DownloadOneRow(hash, w, key, up);
      var got := Fetched(hash, key, up);
      if got.Success? && Some(got.value.file.filePath) == w.table[other].data.filePath {
        FetchedFile(hash, key, up);
        PathHasOneOwner(w.table, key, other, got.value.file.filePath);
      }
    }
  }

  /** ... and leaves its own row in agreement, even where the file was gone. */
  lemma DownloadOneSelf(hash: Bytes -> Hash, w: World, key: Key, up: Upstream, gap: bool)
    requires RowStatus(hash, w, key, gap) && Storable(hash, up)
    ensures RowStatus(hash, DownloadOne(hash, w, key, up), key, false)
  {
    if Allowed(w.table, key, Downloading) {
      DownloadOneRow(hash, w, key, up);
      if Fetched(hash, key, up).Success? { FetchedAgrees(hash, w.files, w.table[key], key, up); }
    }
  }

  lemma DownloadOneAgrees(hash: Bytes -> Hash, w: World, key: Key, up: Upstream, gaps: set<Key>)
    requires AgreesBut(hash, w, gaps) && StemsApart(w.table) && Storable(hash, up)
    ensures AgreesBut(hash, DownloadOne(hash, w, key, up), gaps - {key})
    ensures DownloadOne(hash, w, key, up).table.Keys == w.table.Keys
  {
    var w' := DownloadOne(hash, w, key, up);
    forall k: Key ensures RowStatus(hash, w', k, k in gaps - {key}) {
      assert RowStatus(hash, w, k, k in gaps);
      if k == key { DownloadOneSelf(hash, w, key, up, key in gaps); }
      else { DownloadOneOthers(hash, w, key, up, k, k in gaps); }
    }
  }

  /** The keys of `gaps` that are not those of `ids`. */
  ghost function Without(gaps: set<Key>, show: ShowSlug, ids: seq<EpisodeId>): set<Key> {
    set key | key in gaps && !(key.show == show && key.id in ids)
  }

  lemma WithoutLast(gaps: set<Key>, show: ShowSlug, ids: seq<EpisodeId>)
    requires ids != []
    ensures Without(gaps, show, ids) == Without(gaps, show, ids[..|ids| - 1]) - {Key(show, ids[|ids| - 1])}
  {
    assert ids == ids[..|ids| - 1] + [ids[|ids| - 1]];
  }

  lemma {:induction false} DownloadsAgree(
    hash: Bytes -> Hash, w: World, show: ShowSlug, ids: seq<EpisodeId>, up: Upstream, gaps: set<Key>)
    requires AgreesBut(hash, w, gaps) && StemsApart(w.table) && Storable(hash, up)
    ensures AgreesBut(hash, Downloads(hash, w, show, ids, up), Without(gaps, show, ids))
    ensures Downloads(hash, w, show, ids, up).table.Keys == w.table.Keys
  {
    if ids == [] {
      assert Without(gaps, show, ids) == gaps;
    } else {
      var n := |ids| - 1;
      DownloadsAgree(hash, w, show, ids[..n], up, gaps);
      WithoutLast(gaps, show, ids);
      DownloadOneAgrees(hash, Downloads(hash, w, show, ids[..n], up), Key(show, ids[n]), up, Without(gaps, show, ids[..n]));
    }
  }

  // ----- one prune -----

  /** Deleting a row's file changes the standing of no other row. */
  lemma DeleteTouchesOne(hash: Bytes -> Hash, w: World, key: Key, p: Path, other: Key, gap: bool)
    requires StemsApart(w.table) && RowStatus(hash, w, other, gap)
    requires key in w.table && Owns(key, p) && other != key
    ensures RowStatus(hash, World(w.table, w.files - {p}), other, gap)
  {
    if IsCached(w.table, other) && w.table[other].data.filePath == Some(p) {
      PathHasOneOwner(w.table, key, other, p);
    }
  }

  /** Deleting the file of a cached row opens a gap at that row and at no other. */
  lemma CutAgrees(hash: Bytes -> Hash, w: World, key: Key, p: Path, gaps: set<Key>)
    requires AgreesBut(hash, w, gaps) && StemsApart(w.table)
    requires IsCached(w.table, key) && w.table[key].data.filePath == Some(p)
    ensures AgreesBut(hash, World(w.table, w.files - {p}), gaps + {key})
  {
    assert RowStatus(hash, w, key, key in gaps);
    forall other: Key ensures RowStatus(hash, World(w.table, w.files - {p}), other, other in gaps + {key}) {
      assert RowStatus(hash, w, other, other in gaps);
      if other != key { DeleteTouchesOne(hash, w, key, p, other, other in gaps); }
    }
  }

  /** Marking the row closes its gap. */
  lemma MarkAgrees(hash: Bytes -> Hash, w: World, key: Key, gaps: set<Key>)
    requires AgreesBut(hash, w, gaps) && IsCached(w.table, key)
    ensures AgreesBut(hash, World(MarkPruned(w.table, key), w.files), gaps - {key})
  {
    forall other: Key
      ensures RowStatus(hash, World(MarkPruned(w.table, key), w.files), other, other in gaps - {key})
    {
      assert RowStatus(hash, w, other, other in gaps);
    }
  }

  lemma PruneOneAgrees(hash: Bytes -> Hash, w: World, key: Key, up: Upstream, gaps: set<Key>)
    requires AgreesBut(hash, w, gaps) && StemsApart(w.table) && IsCached(w.table, key)
    ensures AgreesBut(hash, PruneOne(w, key, up), if Skipped(w.table, key, up) then gaps else gaps - {key})
    ensures PruneOne(w, key, up).table.Keys == w.table.Keys
  {
    assert RowStatus(hash, w, key, key in gaps);
    if !Skipped(w.table, key, up) {
      var cut := World(w.table, w.files - {w.table[key].data.filePath.value});
      CutAgrees(hash, w, key, w.table[key].data.filePath.value, gaps);
      MarkAgrees(hash, cut, key, gaps + {key});
      assert gaps + {key} - {key} == gaps - {key};
    }
  }

  /** The gaps whose rows are still cached. */
  ghost function StillCached(gaps: set<Key>, t: Table): set<Key> {
    set key | key in gaps && IsCached(t, key)
  }

  lemma {:induction false} PruneAgrees(
    hash: Bytes -> Hash, w: World, show: ShowSlug, ids: seq<EpisodeId>, up: Upstream, gaps: set<Key>)
    requires AgreesBut(hash, w, gaps) && StemsApart(w.table)
    requires Distinct(ids) && AllCached(w.table, show, ids)
    ensures AgreesBut(hash, Prune(w, show, ids, up), StillCached(gaps, Prune(w, show, ids, up).table))
    ensures Prune(w, show, ids, up).table.Keys == w.table.Keys
  {
    if ids == [] {
      StillCachedStays(hash, w, gaps);
    } else {
      var n := |ids| - 1;
      var before, key := Prune(w, show, ids[..n], up), Key(show, ids[n]);
      assert ids == ids[..n] + [ids[n]];
      assert ids[n] in ids && ids[n] !in ids[..n];
      assert AllCached(w.table, show, ids[..n]);
      PruneAgrees(hash, w, show, ids[..n], up, gaps);
      PruneRow(w, show, ids[..n], up, key);
      PruneOneAgrees(hash, before, key, up, StillCached(gaps, before.table));
      OneFewerCached(before, key, up, gaps);
    }
  }

  lemma OneFewerCached(w: World, key: Key, up: Upstream, gaps: set<Key>)
    requires IsCached(w.table, key)
    ensures StillCached(gaps, PruneOne(w, key, up).table)
            == if Skipped(w.table, key, up) then StillCached(gaps, w.table) else StillCached(gaps, w.table) - {key}
  {
  }

  lemma StillCachedStays(hash: Bytes -> Hash, w: World, gaps: set<Key>)
    requires AgreesBut(hash, w, gaps)
    ensures StillCached(gaps, w.table) == gaps
  {
    forall key | key in gaps ensures IsCached(w.table, key) { assert RowStatus(hash, w, key, true); }
  }

  // ----- one sync, one verify -----

  lemma ListedRow(t: Table, show: ShowSlug, up: Upstream, key: Key)
    ensures var t' := Listed(t, show, up);
            && (key in t ==> key in t' && SameFile(Idle(t[key].data), Idle(t'[key].data)))
            && (IsCached(t', key) <==> IsCached(t, key))
            && (key in t' && key !in t ==> t'[key].data.filePath.None?)
  {
    if up.listing.Success? && up.listing.value.Modified? {
      DiscoverRow(ResetStale(t, show, up.cutoff), show, up.listing.value.episodes, up.now, key);
    }
  }

  lemma ListedAgrees(hash: Bytes -> Hash, w: World, show: ShowSlug, up: Upstream, gaps: set<Key>)
    requires AgreesBut(hash, w, gaps)
    ensures AgreesBut(hash, World(Listed(w.table, show, up), w.files), gaps)
  {
    var w' := World(Listed(w.table, show, up), w.files);
    forall key: Key ensures RowStatus(hash, w', key, key in gaps) {
      assert RowStatus(hash, w, key, key in gaps);
      ListedRow(w.table, show, up, key);
    }
  }

  /** What is downloaded is not cached, so it has no gap. */
  lemma PendingHasNoGaps(
    hash: Bytes -> Hash, w: World, show: ShowSlug, policy: Policy, window: seq<EpisodeId>, gaps: set<Key>)
    requires AgreesBut(hash, w, gaps)
    ensures Without(gaps, show, Pending(w.table, show, policy, window)) == gaps
  {
    PendingMembers(w.table, show, policy, window);
    forall key | key in gaps ensures !(key.show == show && key.id in Pending(w.table, show, policy, window)) {
      assert RowStatus(hash, w, key, true);
    }
  }

  lemma SettleAgrees(
    hash: Bytes -> Hash, w: World, show: ShowSlug, policy: Policy, window: seq<EpisodeId>, up: Upstream, gaps: set<Key>)
    requires AgreesBut(hash, w, gaps) && StemsApart(w.table) && Storable(hash, up)
    ensures AgreesBut(hash, Settle(hash, w, show, policy, window, up),
                      StillCached(gaps, Settle(hash, w, show, policy, window, up).table))
    ensures Settle(hash, w, show, policy, window, up).table.Keys == w.table.Keys
  {
    var pending := Pending(w.table, show, policy, window);
    var w' := Downloads(hash, w, show, pending, up);
    PendingHasNoGaps(hash, w, show, policy, window, gaps);
    DownloadsAgree(hash, w, show, pending, up, gaps);
    PlanMembers(w'.table, show, policy);
    PruneAgrees(hash, w', show, PrunePlan(w'.table, show, policy), up, gaps);
  }

  /** One sync opens no gap, whatever fails, and closes those of the rows it prunes. */
  lemma SyncAgrees(
    hash: Bytes -> Hash, w: World, show: ShowSlug, policy: Policy, limit: Option<nat>, up: Upstream, gaps: set<Key>)
    requires AgreesBut(hash, w, gaps) && Storable(hash, up)
    requires StemsApart(Synced(hash, w, show, policy, limit, up).table)
    ensures AgreesBut(hash, Synced(hash, w, show, policy, limit, up),
                      StillCached(gaps, Synced(hash, w, show, policy, limit, up).table))
  {
    var listed := World(Listed(w.table, show, up), w.files);
    ListedAgrees(hash, w, show, up, gaps);
    if ListsShow(up) {
      var window := Window(w.table, show, limit, up);
      SyncedKeys(hash, listed, show, policy, window, up);
      SettleAgrees(hash, listed, show, policy, window, up, gaps);
    } else {
      StillCachedStays(hash, listed, gaps);
    }
  }

  lemma {:induction false} DownloadsKeys(hash: Bytes -> Hash, w: World, show: ShowSlug, ids: seq<EpisodeId>, up: Upstream)
    ensures Downloads(hash, w, show, ids, up).table.Keys == w.table.Keys
  {
    if ids != [] { DownloadsKeys(hash, w, show, ids[..|ids| - 1], up); }
  }

  lemma {:induction false} PruneKeys(w: World, show: ShowSlug, ids: seq<EpisodeId>, up: Upstream)
    ensures Prune(w, show, ids, up).table.Keys == w.table.Keys
  {
    if ids != [] { PruneKeys(w, show, ids[..|ids| - 1], up); }
  }

  lemma SyncedKeys(
    hash: Bytes -> Hash, w: World, show: ShowSlug, policy: Policy, window: seq<EpisodeId>, up: Upstream)
    ensures Settle(hash, w, show, policy, window, up).table.Keys == w.table.Keys
  {
    var pending := Pending(w.table, show, policy, window);
    var w' := Downloads(hash, w, show, pending, up);
    DownloadsKeys(hash, w, show, pending, up);
    PruneKeys(w', show, PrunePlan(w'.table, show, policy), up);
  }

  lemma VerifyOneAgrees(hash: Bytes -> Hash, w: World, key: Key, fix: bool, up: Upstream, gaps: set<Key>)
    requires AgreesBut(hash, w, gaps) && StemsApart(w.table) && Storable(hash, up)
    ensures AgreesBut(hash, VerifyOne(hash, w, key, fix, up), if fix then gaps - {key} else gaps)
    ensures VerifyOne(hash, w, key, fix, up).table.Keys == w.table.Keys
  {
    assert RowStatus(hash, w, key, key in gaps);
    if fix && Damaged(hash, w, key, up) { DownloadOneAgrees(hash, w, key, up, gaps); }
    else if fix { assert key !in gaps && gaps - {key} == gaps; }
  }

  /** A verify opens no gap; a repairing one closes those of all rows it checks. */
  lemma {:induction false} VerifyAgrees(
    hash: Bytes -> Hash, w: World, show: ShowSlug, ids: seq<EpisodeId>, fix: bool, up: Upstream, gaps: set<Key>)
    requires AgreesBut(hash, w, gaps) && StemsApart(w.table) && Storable(hash, up)
    ensures AgreesBut(hash, Verified(hash, w, show, ids, fix, up), if fix then Without(gaps, show, ids) else gaps)
    ensures Verified(hash, w, show, ids, fix, up).table.Keys == w.table.Keys
  {
    if ids == [] {
      assert Without(gaps, show, ids) == gaps;
    } else {
      var n := |ids| - 1;
      VerifyAgrees(hash, w, show, ids[..n], fix, up, gaps);
      WithoutLast(gaps, show, ids);
      VerifyOneAgrees(hash, Verified(hash, w, show, ids[..n], fix, up), Key(show, ids[n]), fix, up,
                      if fix then Without(gaps, show, ids[..n]) else gaps);
    }
  }

  // ----- whole runs -----

  /** The operations of a library, one at a time, with whatever the outside world answers.
      A process that dies half-way leaves the single steps it got to: a listing, some
      downloads, a download cut off before or after its rename, some prunes, and a prune that
      got no further than deleting the file. */
  datatype Action =
    | DoSync(show: ShowSlug, policy: Policy, limit: Option<nat>, up: Upstream)
    | DoVerify(show: ShowSlug, fix: bool, up: Upstream)
    | DoList(show: ShowSlug, up: Upstream)
    | DoDownload(key: Key, up: Upstream)
    | DoCutOff(key: Key, renamed: bool, up: Upstream)
    | DoPrune(key: Key, up: Upstream)
    | DoPruneCut(key: Key, up: Upstream)

  /** A download that died while its row was downloading. */
  function CutOff(hash: Bytes -> Hash, w: World, key: Key, renamed: bool, up: Upstream): World {
    var got := Fetched(hash, key, up);
    if !Allowed(w.table, key, Downloading) then w
    else World(MarkDownloading(w.table, key),
               if renamed && got.Success? then w.files[got.value.file.filePath := got.value.body] else w.files)
  }

  /** Whether a prune of `key` deletes a file. */
  predicate Deletes(w: World, key: Key, up: Upstream) {
    IsCached(w.table, key) && w.table[key].data.filePath.Some? && !up.refuses(w.table[key].data.filePath.value)
  }

  ghost function Act(hash: Bytes -> Hash, w: World, a: Action): World {
    match a
    case DoSync(show, policy, limit, up) => Synced(hash, w, show, policy, limit, up)
    case DoVerify(show, fix, up) => Verified(hash, w, show, CachedInOrder(w.table, show), fix, up)
    case DoList(show, up) => World(Listed(w.table, show, up), w.files)
    case DoDownload(key, up) => DownloadOne(hash, w, key, up)
    case DoCutOff(key, renamed, up) => CutOff(hash, w, key, renamed, up)
    case DoPrune(key, up) => if IsCached(w.table, key) then PruneOne(w, key, up) else w
    case DoPruneCut(key, up) =>
      if Deletes(w, key, up) then World(w.table, w.files - {w.table[key].data.filePath.value}) else w
  }

  ghost function Play(hash: Bytes -> Hash, actions: seq<Action>): World {
    if actions == [] then World(map[], map[])
    else Act(hash, Play(hash, actions[..|actions| - 1]), actions[|actions| - 1])
  }

  /** The row whose pruning `a` cuts off after the deletion. */
  function CutBy(w: World, a: Action): set<Key> {
    if a.DoPruneCut? && Deletes(w, a.key, a.up) then {a.key} else {}
  }

  /** `a` fetches the audio of a cached row again. */
  predicate Refetches(hash: Bytes -> Hash, w: World, a: Action, key: Key) {
    match a
    case DoDownload(k, up) => k == key && Arrives(hash, w.table, key, up)
    case DoVerify(show, fix, up) =>
      fix && key.show == show && Damaged(hash, w, key, up) && Arrives(hash, w.table, key, up)
    case _ => false
  }

  /** The rows whose pruning was cut off after the deletion, and that were neither pruned nor
      fetched again since. */
  ghost function Gaps(hash: Bytes -> Hash, actions: seq<Action>): set<Key> {
    if actions == [] then {}
    else
      var n := |actions| - 1;
      GapsAfter(hash, Play(hash, actions[..n]), actions[n], Gaps(hash, actions[..n]))
  }

  ghost function GapsAfter(hash: Bytes -> Hash, w: World, a: Action, gaps: set<Key>): set<Key> {
    set key | key in gaps + CutBy(w, a) && IsCached(Act(hash, w, a).table, key) && !Refetches(hash, w, a, key)
  }

  lemma ActKeys(hash: Bytes -> Hash, w: World, a: Action, key: Key)
    requires key in w.table
    ensures key in Act(hash, w, a).table
  {
    match a
    case DoSync(show, policy, limit, up) =>
      ListedRow(w.table, show, up, key);
      if ListsShow(up) {
        SyncedKeys(hash, World(Listed(w.table, show, up), w.files), show, policy, Window(w.table, show, limit, up), up);
      }
    case DoVerify(show, fix, up) => VerifyKeys(hash, w, show, CachedInOrder(w.table, show), fix, up);
    case DoList(show, up) => ListedRow(w.table, show, up, key);
    case DoDownload(_, _) =>
    case DoCutOff(_, _, _) =>
    case DoPrune(_, _) =>
    case DoPruneCut(_, _) =>
  }

  lemma CutOffAgrees(hash: Bytes -> Hash, w: World, key: Key, renamed: bool, up: Upstream, gaps: set<Key>)
    requires AgreesBut(hash, w, gaps) && StemsApart(w.table)
    ensures AgreesBut(hash, CutOff(hash, w, key, renamed, up), StillCached(gaps, CutOff(hash, w, key, renamed, up).table))
  {
    var w' := CutOff(hash, w, key, renamed, up);
    forall k: Key ensures RowStatus(hash, w', k, k in StillCached(gaps, w'.table)) {
      assert RowStatus(hash, w, k, k in gaps);
      if k != key { DownloadOneOthers(hash, w, key, up, k, k in gaps); }
    }
  }

  lemma {:induction false} VerifyKeys(hash: Bytes -> Hash, w: World, show: ShowSlug, ids: seq<EpisodeId>, fix: bool, up: Upstream)
    ensures Verified(hash, w, show, ids, fix, up).table.Keys == w.table.Keys
  {
    if ids != [] { VerifyKeys(hash, w, show, ids[..|ids| - 1], fix, up); }
  }

  lemma ActKeepsRows(hash: Bytes -> Hash, w: World, a: Action)
    ensures w.table.Keys <= Act(hash, w, a).table.Keys
  {
    forall key | key in w.table ensures key in Act(hash, w, a).table { ActKeys(hash, w, a, key); }
  }

  lemma FewerStems(t: Table, t': Table)
    requires t.Keys <= t'.Keys && StemsApart(t')
    ensures StemsApart(t)
  {
  }

  // ----- which gaps each action leaves -----

  lemma DownloadGaps(hash: Bytes -> Hash, w: World, key: Key, up: Upstream, gaps: set<Key>)
    requires AgreesBut(hash, w, gaps)
    ensures GapsAfter(hash, w, DoDownload(key, up), gaps) == gaps - {key}
  {
    forall k: Key ensures k in GapsAfter(hash, w, DoDownload(key, up), gaps) <==> k in gaps - {key} {
      assert RowStatus(hash, w, k, k in gaps);
      DownloadedRow(hash, w, key, up, k);
    }
  }

  /** A download leaves the other rows as they were, and its own cached exactly if it arrived. */
  lemma DownloadedRow(hash: Bytes -> Hash, w: World, key: Key, up: Upstream, k: Key)
    ensures k != key ==> (IsCached(DownloadOne(hash, w, key, up).table, k) <==> IsCached(w.table, k))
    ensures IsCached(DownloadOne(hash, w, key, up).table, key) <==> Arrives(hash, w.table, key, up)
  {
    if Allowed(w.table, key, Downloading) { DownloadOneRow(hash, w, key, up); }
  }

  lemma PruneGaps(hash: Bytes -> Hash, w: World, key: Key, up: Upstream, gaps: set<Key>)
    requires AgreesBut(hash, w, gaps) && IsCached(w.table, key)
    ensures GapsAfter(hash, w, DoPrune(key, up), gaps) == if Skipped(w.table, key, up) then gaps else gaps - {key}
  {
    StillCachedStays(hash, w, gaps);
    OneFewerCached(w, key, up, gaps);
    assert GapsAfter(hash, w, DoPrune(key, up), gaps) == StillCached(gaps, PruneOne(w, key, up).table);
  }

  lemma CutGaps(hash: Bytes -> Hash, w: World, key: Key, up: Upstream, gaps: set<Key>)
    requires AgreesBut(hash, w, gaps)
    ensures GapsAfter(hash, w, DoPruneCut(key, up), gaps) == gaps + CutBy(w, DoPruneCut(key, up))
  {
    StillCachedStays(hash, w, gaps);
  }

  lemma PruneCutAgrees(hash: Bytes -> Hash, w: World, key: Key, up: Upstream, gaps: set<Key>)
    requires AgreesBut(hash, w, gaps) && StemsApart(w.table)
    ensures AgreesBut(hash, Act(hash, w, DoPruneCut(key, up)), gaps + CutBy(w, DoPruneCut(key, up)))
  {
    if Deletes(w, key, up) { CutAgrees(hash, w, key, w.table[key].data.filePath.value, gaps); }
    else { assert gaps + {} == gaps; }
  }

  /** A gap is found, and fetched again if its audio arrives. */
  lemma GapIsRepaired(hash: Bytes -> Hash, w: World, key: Key, up: Upstream)
    requires RowGapped(w, key)
    ensures Damaged(hash, w, key, up)
    ensures Arrives(hash, w.table, key, up) <==> Fetched(hash, key, up).Success?
    ensures IsCached(VerifyOne(hash, w, key, true, up).table, key) <==> Fetched(hash, key, up).Success?
  {
    DownloadedRow(hash, w, key, up, key);
  }

  lemma GapPersists(
    hash: Bytes -> Hash, w: World, show: ShowSlug, ids: seq<EpisodeId>, up: Upstream, gaps: set<Key>, key: Key)
    requires AgreesBut(hash, w, gaps) && StemsApart(w.table) && Storable(hash, up)
    requires key in gaps && key.show == show && key.id !in ids
    ensures RowGapped(Verified(hash, w, show, ids, true, up), key)
  {
    VerifyAgrees(hash, w, show, ids, true, up, gaps);
    assert key in Without(gaps, show, ids);
    assert RowStatus(hash, Verified(hash, w, show, ids, true, up), key, true);
  }

  /** A repairing verify leaves a gapped row cached exactly when its audio arrives. */
  lemma {:induction false} VerifiedCached(
    hash: Bytes -> Hash, w: World, show: ShowSlug, ids: seq<EpisodeId>, up: Upstream, gaps: set<Key>, key: Key)
    requires AgreesBut(hash, w, gaps) && StemsApart(w.table) && Storable(hash, up) && Distinct(ids)
    requires key in gaps && key.show == show && key.id in ids
    ensures IsCached(Verified(hash, w, show, ids, true, up).table, key) <==> Fetched(hash, key, up).Success?
  {
    var n := |ids| - 1;
    var before := Verified(hash, w, show, ids[..n], true, up);
    assert ids == ids[..n] + [ids[n]];
    if key.id == ids[n] {
      assert ids[n] !in ids[..n];
      GapPersists(hash, w, show, ids[..n], up, gaps, key);
      GapIsRepaired(hash, before, key, up);
    } else {
      VerifiedCached(hash, w, show, ids[..n], up, gaps, key);
      DownloadedRow(hash, before, Key(show, ids[n]), up, key);
    }
  }

  /** A repairing verify closes each gap of its show, by fetching the row again or failing it. */
  lemma VerifyGap(hash: Bytes -> Hash, w: World, show: ShowSlug, up: Upstream, gaps: set<Key>, key: Key)
    requires AgreesBut(hash, w, gaps) && StemsApart(w.table) && Storable(hash, up)
    requires key in gaps && key.show == show
    ensures key.id in CachedInOrder(w.table, show)
    ensures IsCached(Verified(hash, w, show, CachedInOrder(w.table, show), true, up).table, key)
            ==> Refetches(hash, w, DoVerify(show, true, up), key)
  {
    assert RowStatus(hash, w, key, true);
    CachedMembers(w.table, show);
    VerifiedCached(hash, w, show, CachedInOrder(w.table, show), up, gaps, key);
    GapIsRepaired(hash, w, key, up);
  }

  lemma GapSurvives(
    hash: Bytes -> Hash, w: World, show: ShowSlug, ids: seq<EpisodeId>, fix: bool, up: Upstream, gaps: set<Key>, key: Key)
    requires AgreesBut(hash, w, gaps) && StemsApart(w.table) && Storable(hash, up)
    requires key in gaps && !(fix && key.show == show)
    ensures IsCached(Verified(hash, w, show, ids, fix, up).table, key)
  {
    var left := if fix then Without(gaps, show, ids) else gaps;
    VerifyAgrees(hash, w, show, ids, fix, up, gaps);
    assert key in left;
    assert RowStatus(hash, Verified(hash, w, show, ids, fix, up), key, key in left);
  }

  lemma VerifyGapAt(hash: Bytes -> Hash, w: World, show: ShowSlug, fix: bool, up: Upstream, gaps: set<Key>, key: Key)
    requires AgreesBut(hash, w, gaps) && StemsApart(w.table) && Storable(hash, up) && key in gaps
    ensures key in GapsAfter(hash, w, DoVerify(show, fix, up), gaps) <==> !(fix && key.show == show)
  {
    if fix && key.show == show {
      VerifyGap(hash, w, show, up, gaps, key);
    } else {
      GapSurvives(hash, w, show, CachedInOrder(w.table, show), fix, up, gaps, key);
      assert !Refetches(hash, w, DoVerify(show, fix, up), key);
    }
  }

  lemma VerifyGaps(hash: Bytes -> Hash, w: World, show: ShowSlug, fix: bool, up: Upstream, gaps: set<Key>)
    requires AgreesBut(hash, w, gaps) && StemsApart(w.table) && Storable(hash, up)
    ensures GapsAfter(hash, w, DoVerify(show, fix, up), gaps)
            == if fix then Without(gaps, show, CachedInOrder(w.table, show)) else gaps
  {
    forall key | key in gaps
      ensures key in GapsAfter(hash, w, DoVerify(show, fix, up), gaps) <==> !(fix && key.show == show)
      ensures key.show == show ==> key.id in CachedInOrder(w.table, show)
    {
      VerifyGapAt(hash, w, show, fix, up, gaps, key);
      if key.show == show { VerifyGap(hash, w, show, up, gaps, key); }
    }
  }

  /** An action that neither cuts nor fetches again closes the gaps of the rows it uncaches. */
  lemma PlainGaps(hash: Bytes -> Hash, w: World, a: Action, gaps: set<Key>)
    requires !a.DoPruneCut? && !a.DoVerify? && !a.DoDownload?
    ensures GapsAfter(hash, w, a, gaps) == StillCached(gaps, Act(hash, w, a).table)
  {
  }

  lemma ActAgrees(hash: Bytes -> Hash, w: World, a: Action, gaps: set<Key>)
    requires AgreesBut(hash, w, gaps) && StemsApart(w.table) && StemsApart(Act(hash, w, a).table) && Storable(hash, a.up)
    ensures AgreesBut(hash, Act(hash, w, a), GapsAfter(hash, w, a, gaps))
  {
    match a
    case DoSync(show, policy, limit, up) =>
      SyncAgrees(hash, w, show, policy, limit, up, gaps);
      PlainGaps(hash, w, a, gaps);
    case DoVerify(show, fix, up) =>
      VerifyAgrees(hash, w, show, CachedInOrder(w.table, show), fix, up, gaps);
      VerifyGaps(hash, w, show, fix, up, gaps);
    case DoList(show, up) =>
      ListedAgrees(hash, w, show, up, gaps);
      StillCachedStays(hash, World(Listed(w.table, show, up), w.files), gaps);
      PlainGaps(hash, w, a, gaps);
    case DoDownload(key, up) =>
      DownloadOneAgrees(hash, w, key, up, gaps);
      DownloadGaps(hash, w, key, up, gaps);
    case DoCutOff(key, renamed, up) =>
      CutOffAgrees(hash, w, key, renamed, up, gaps);
      PlainGaps(hash, w, a, gaps);
    case DoPrune(key, up) =>
      if IsCached(w.table, key) {
        PruneOneAgrees(hash, w, key, up, gaps);
        PruneGaps(hash, w, key, up, gaps);
      } else {
        StillCachedStays(hash, w, gaps);
        PlainGaps(hash, w, a, gaps);
      }
    case DoPruneCut(key, up) =>
      PruneCutAgrees(hash, w, key, up, gaps);
      CutGaps(hash, w, key, up, gaps);
  }

  /** Over every run of syncs, verifies, repairs and crashes from an empty library, with no
      outside tampering: if no two episodes ever stored share a stem, then every cached row's file
      exists with exactly the recorded size and hash, at a path of its own, except for the rows
      whose pruning died after the deletion and that were neither pruned nor fetched since. */
  lemma {:induction false} EveryRunAgrees(hash: Bytes -> Hash, actions: seq<Action>)
    requires StemsApart(Play(hash, actions).table)
    requires forall i :: 0 <= i < |actions| ==> Storable(hash, actions[i].up)
    ensures AgreesBut(hash, Play(hash, actions), Gaps(hash, actions))
  {
    if actions != [] {
      var n := |actions| - 1;
      var w, a := Play(hash, actions[..n]), actions[n];
      ActKeepsRows(hash, w, a);
      FewerStems(w.table, Act(hash, w, a).table);
      EveryRunAgrees(hash, actions[..n]);
      ActAgrees(hash, w, a, Gaps(hash, actions[..n]));
    }
  }

  /** So a row disagrees with the disk exactly when it is such a gap. */
  lemma DisagreementIsAGap(hash: Bytes -> Hash, actions: seq<Action>, key: Key)
    requires StemsApart(Play(hash, actions).table)
    requires forall i :: 0 <= i < |actions| ==> Storable(hash, actions[i].up)
    ensures RowAgrees(hash, Play(hash, actions), key) <==> key !in Gaps(hash, actions)
  {
    EveryRunAgrees(hash, actions);
    GapsDisagree(hash, Play(hash, actions), Gaps(hash, actions), key);
  }

  /** Without such a death there is no gap at all. */
  lemma {:induction false} NoCutNoGap(hash: Bytes -> Hash, actions: seq<Action>)
    requires forall i :: 0 <= i < |actions| ==> !actions[i].DoPruneCut?
    ensures Gaps(hash, actions) == {}
  {
    if actions != [] { NoCutNoGap(hash, actions[..|actions| - 1]); }
  }

  /** ... so then all rows agree. */
  lemma WithoutCutsAllAgree(hash: Bytes -> Hash, actions: seq<Action>)
    requires StemsApart(Play(hash, actions).table)
    requires forall i :: 0 <= i < |actions| ==> Storable(hash, actions[i].up) && !actions[i].DoPruneCut?
    ensures Agrees(hash, Play(hash, actions))
  {
    EveryRunAgrees(hash, actions);
    NoCutNoGap(hash, actions);
    NoGaps(hash, Play(hash, actions));
  }

  lemma RunSoFar(hash: Bytes -> Hash, actions: seq<Action>, a: Action)
    requires StemsApart(Act(hash, Play(hash, actions), a).table)
    requires forall i :: 0 <= i < |actions| ==> Storable(hash, actions[i].up)
    ensures var w := Play(hash, actions); AgreesBut(hash, w, Gaps(hash, actions)) && StemsApart(w.table)
  {
    var w := Play(hash, actions);
    ActKeepsRows(hash, w, a);
    FewerStems(w.table, Act(hash, w, a).table);
    EveryRunAgrees(hash, actions);
  }

  /** In any run, the next prune of a gapped row closes the gap with a tombstone, unless the path
      is refused. */
  lemma PruneCloses(hash: Bytes -> Hash, actions: seq<Action>, key: Key, up: Upstream)
    requires StemsApart(Act(hash, Play(hash, actions), DoPrune(key, up)).table)
    requires forall i :: 0 <= i < |actions| ==> Storable(hash, actions[i].up)
    requires key in Gaps(hash, actions) && !Skipped(Play(hash, actions).table, key, up)
    ensures var w, gaps, a := Play(hash, actions), Gaps(hash, actions), DoPrune(key, up);
            && GapsAfter(hash, w, a, gaps) == gaps - {key}
            && key in Act(hash, w, a).table && Act(hash, w, a).table[key].state == Pruned
  {
    RunSoFar(hash, actions, DoPrune(key, up));
    PruneStep(hash, Play(hash, actions), key, up, Gaps(hash, actions));
  }

  lemma PruneStep(hash: Bytes -> Hash, w: World, key: Key, up: Upstream, gaps: set<Key>)
    requires AgreesBut(hash, w, gaps) && key in gaps && !Skipped(w.table, key, up)
    ensures var a := DoPrune(key, up);
            && GapsAfter(hash, w, a, gaps) == gaps - {key}
            && key in Act(hash, w, a).table && Act(hash, w, a).table[key].state == Pruned
  {
    assert RowStatus(hash, w, key, true);
    PruneGaps(hash, w, key, up, gaps);
  }

  /** In any run, the next repairing verify of the show closes the gap, and leaves the row cached
      and in agreement if the audio arrives. */
  lemma RepairCloses(hash: Bytes -> Hash, actions: seq<Action>, key: Key, up: Upstream)
    requires StemsApart(Act(hash, Play(hash, actions), DoVerify(key.show, true, up)).table)
    requires forall i :: 0 <= i < |actions| ==> Storable(hash, actions[i].up)
    requires Storable(hash, up) && key in Gaps(hash, actions)
    ensures var w, gaps, a := Play(hash, actions), Gaps(hash, actions), DoVerify(key.show, true, up);
            && key !in GapsAfter(hash, w, a, gaps)
            && RowAgrees(hash, Act(hash, w, a), key)
            && (IsCached(Act(hash, w, a).table, key) <==> Fetched(hash, key, up).Success?)
  {
    var a := DoVerify(key.show, true, up);
    RunSoFar(hash, actions, a);
    RepairStep(hash, Play(hash, actions), key, up, Gaps(hash, actions));
  }

  lemma RepairStep(hash: Bytes -> Hash, w: World, key: Key, up: Upstream, gaps: set<Key>)
    requires AgreesBut(hash, w, gaps) && StemsApart(w.table) && Storable(hash, up) && key in gaps
    ensures var a := DoVerify(key.show, true, up);
            && key !in GapsAfter(hash, w, a, gaps)
            && RowAgrees(hash, Act(hash, w, a), key)
            && (IsCached(Act(hash, w, a).table, key) <==> Fetched(hash, key, up).Success?)
  {
    var ids := CachedInOrder(w.table, key.show);
    assert RowStatus(hash, w, key, true);
    VerifyGap(hash, w, key.show, up, gaps, key);
    CachedMembers(w.table, key.show);
    VerifiedCached(hash, w, key.show, ids, up, gaps, key);
    VerifiedAgrees(hash, w, key.show, ids, up, gaps, key);
  }

  lemma VerifiedAgrees(
    hash: Bytes -> Hash, w: World, show: ShowSlug, ids: seq<EpisodeId>, up: Upstream, gaps: set<Key>, key: Key)
    requires AgreesBut(hash, w, gaps) && StemsApart(w.table) && Storable(hash, up)
    requires key.show == show && key.id in ids
    ensures RowAgrees(hash, Verified(hash, w, show, ids, true, up), key)
  {
    VerifyAgrees(hash, w, show, ids, true, up, gaps);
    GapsDisagree(hash, Verified(hash, w, show, ids, true, up), Without(gaps, show, ids), key);
  }
}
