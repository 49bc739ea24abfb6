/** How downloads and prunes act on a single row and a single path. */
module Rows {
  import opened Wrappers
  import opened Domain
  import opened Retention
  import opened Episodes
  import opened Media
  import opened Download
  import opened World

  // ----- lists of distinct ids -----

  lemma {:induction false} OnlyMembers(ids: seq<EpisodeId>, s: set<EpisodeId>)
    ensures forall id :: id in Only(ids, s) <==> id in ids && id in s
    ensures Distinct(ids) ==> Distinct(Only(ids, s))
  {
    if ids != [] {
      var n := |ids| - 1;
      OnlyMembers(ids[..n], s);
      assert ids == ids[..n] + [ids[n]];
      if Distinct(ids) { assert ids[n] !in ids[..n]; }
    }
  }

  function InSet(ids: seq<EpisodeId>, s: set<EpisodeId>): (mask: seq<bool>)
    ensures |mask| == |ids| && forall i :: 0 <= i < |ids| ==> mask[i] == (ids[i] in s)
  {
    seq(|ids|, i requires 0 <= i < |ids| => ids[i] in s)
  }

  lemma {:induction false} OnlyIsSelect(ids: seq<EpisodeId>, s: set<EpisodeId>)
    ensures Only(ids, s) == Select(ids, InSet(ids, s))
  {
    if ids != [] {
      var n := |ids| - 1;
      OnlyIsSelect(ids[..n], s);
      assert InSet(ids, s)[..n] == InSet(ids[..n], s);
    }
  }

  lemma {:induction false} SelectIds(cs: seq<Candidate>, mask: seq<bool>)
    requires |cs| == |mask|
    ensures Ids(Select(cs, mask)) == Select(Ids(cs), mask)
  {
    if cs != [] {
      var n := |cs| - 1;
      SelectIds(cs[..n], mask[..n]);
      assert Ids(cs)[..n] == Ids(cs[..n]);
      if mask[n] { IdsAppend(Select(cs[..n], mask[..n]), cs[n]); }
    }
  }

  lemma {:induction false} SelectMembers(ids: seq<EpisodeId>, mask: seq<bool>, id: EpisodeId)
    requires |ids| == |mask|
    ensures id in Select(ids, mask) ==> id in ids
    ensures Distinct(ids) ==> (id in Select(ids, Not(mask)) <==> id in ids && id !in Select(ids, mask))
    ensures Distinct(ids) ==> Distinct(Select(ids, mask))
  {
    if ids != [] {
      var n := |ids| - 1;
      SelectMembers(ids[..n], mask[..n], id);
      SelectMembers(ids[..n], mask[..n], ids[n]);
      assert Not(mask)[..n] == Not(mask[..n]);
      assert ids == ids[..n] + [ids[n]];
      if Distinct(ids) { assert ids[n] !in ids[..n]; }
    }
  }

  lemma DoomedMembers(policy: Policy, cs: seq<Candidate>)
    requires Distinct(Ids(cs))
    ensures Distinct(Ids(Doomed(policy, cs)))
    ensures forall id :: id in Ids(Doomed(policy, cs)) <==> id in Ids(cs) && id !in Ids(Kept(policy, cs))
    ensures forall id :: id in Ids(Kept(policy, cs)) ==> id in Ids(cs)
  {
    var mask := Choice(policy, cs);
    SelectIds(cs, mask);
    SelectIds(cs, Not(mask));
    forall id: EpisodeId
      ensures id in Ids(Doomed(policy, cs)) <==> id in Ids(cs) && id !in Ids(Kept(policy, cs))
      ensures id in Ids(Kept(policy, cs)) ==> id in Ids(cs)
      ensures Distinct(Ids(Doomed(policy, cs)))
    {
      SelectMembers(Ids(cs), mask, id);
      SelectMembers(Ids(cs), Not(mask), id);
    }
    SelectMembers(Ids(cs), Not(mask), "1");
  }

  lemma ReversedMembers(ids: seq<EpisodeId>)
    ensures forall id :: id in Reversed(ids) <==> id in ids
    ensures Distinct(ids) ==> Distinct(Reversed(ids))
  {
    var r := Reversed(ids);
    forall id | id in ids ensures id in r {
      var i :| 0 <= i < |ids| && ids[i] == id;
      assert r[|ids| - 1 - i] == id;
    }
  }

  /** The cached candidates are the cached rows, each once. */
  lemma CachedMembers(t: Table, show: ShowSlug)
    ensures Ids(CachedCandidates(t, show)) == CachedInOrder(t, show)
    ensures Distinct(Ids(CachedCandidates(t, show)))
    ensures forall id: EpisodeId :: id in Ids(CachedCandidates(t, show)) <==> IsCached(t, Key(show, id))
  {
    OrderedRows(t, show);
    OnlyMembers(Ordered(t, show), CachedIds(t, show));
    assert Ids(CachedCandidates(t, show)) == CachedInOrder(t, show);
  }

  /** The plan prunes each cached row the policy rejects, once, and no other. */
  lemma PlanMembers(t: Table, show: ShowSlug, policy: Policy)
    ensures Distinct(PrunePlan(t, show, policy))
    ensures AllCached(t, show, PrunePlan(t, show, policy))
    ensures forall id: EpisodeId :: id in PrunePlan(t, show, policy) <==>
              IsCached(t, Key(show, id)) && id !in Ids(Kept(policy, CachedCandidates(t, show)))
  {
    CachedMembers(t, show);
    DoomedMembers(policy, CachedCandidates(t, show));
    ReversedMembers(Ids(Doomed(policy, CachedCandidates(t, show))));
  }

  // ----- pruning, row by row -----

  function PrunedRow(r: Record): Record {
    Record(Pruned, Forgotten(r.data))
  }

  ghost predicate GetsPruned(t: Table, key: Key, show: ShowSlug, ids: seq<EpisodeId>, up: Upstream) {
    key.show == show && key.id in ids && key in t && !Skipped(t, key, up)
  }

  ghost predicate AllCached(t: Table, show: ShowSlug, ids: seq<EpisodeId>) {
    forall id :: id in ids ==> IsCached(t, Key(show, id))
  }

  /** Pruning distinct cached rows turns exactly those whose file can go into tombstones. */
  lemma {:induction false} PruneRow(w: World, show: ShowSlug, ids: seq<EpisodeId>, up: Upstream, key: Key)
    requires Distinct(ids) && AllCached(w.table, show, ids)
    ensures var t := Prune(w, show, ids, up).table;
            && (key in t <==> key in w.table)
            && (key in t ==> t[key] == if GetsPruned(w.table, key, show, ids, up) then PrunedRow(w.table[key]) else w.table[key])
  {
    if ids != [] {
      var n := |ids| - 1;
      var last := Key(show, ids[n]);
      assert ids == ids[..n] + [ids[n]];
      PruneRow(w, show, ids[..n], up, key);
      PruneRow(w, show, ids[..n], up, last);
      assert ids[n] in ids && ids[n] !in ids[..n];
    }
  }

  /** Pruning `ids` deletes `p` on behalf of `id`. */
  ghost predicate PrunesPath(t: Table, show: ShowSlug, ids: seq<EpisodeId>, up: Upstream, id: EpisodeId, p: Path) {
    var key := Key(show, id);
    GetsPruned(t, key, show, ids, up) && t[key].data.filePath == Some(p)
  }

  /** A file goes when pruning reaches the row that records it... */
  lemma {:induction false} PrunedFileGoes(
    w: World, show: ShowSlug, ids: seq<EpisodeId>, up: Upstream, id: EpisodeId, p: Path)
    requires Distinct(ids) && AllCached(w.table, show, ids)
    requires PrunesPath(w.table, show, ids, up, id, p)
    ensures p !in Prune(w, show, ids, up).files
  {
    var n := |ids| - 1;
    assert ids == ids[..n] + [ids[n]];
    assert AllCached(w.table, show, ids[..n]);
    if id == ids[n] {
      assert ids[n] !in ids[..n];
      PruneRow(w, show, ids[..n], up, Key(show, id));
    } else {
      PrunedFileGoes(w, show, ids[..n], up, id, p);
    }
  }

  /** ... and only then; the other files keep their contents. */
  lemma {:induction false} OtherFilesStay(w: World, show: ShowSlug, ids: seq<EpisodeId>, up: Upstream, p: Path)
    requires Distinct(ids) && AllCached(w.table, show, ids)
    requires forall id: EpisodeId :: !PrunesPath(w.table, show, ids, up, id, p)
    ensures var files := Prune(w, show, ids, up).files;
            (p in files <==> p in w.files) && (p in files ==> files[p] == w.files[p])
  {
    if ids != [] {
      var n := |ids| - 1;
      assert ids == ids[..n] + [ids[n]];
      assert AllCached(w.table, show, ids[..n]);
      forall id: EpisodeId ensures !PrunesPath(w.table, show, ids[..n], up, id, p) {
        assert !PrunesPath(w.table, show, ids, up, id, p);
      }
      OtherFilesStay(w, show, ids[..n], up, p);
      assert ids[n] in ids && ids[n] !in ids[..n];
      assert !PrunesPath(w.table, show, ids, up, ids[n], p);
      PruneRow(w, show, ids[..n], up, Key(show, ids[n]));
    }
  }

  // ----- downloads, row by row -----

  /** The row a download leaves behind, from the row it found. */
  function RowAfter(hash: Bytes -> Hash, r: Record, key: Key, up: Upstream): Record {
    var got := Fetched(hash, key, up);
    if got.Success? then Record(Cached, Stored(r.data, got.value.file, up.finished(key.id)))
    else Record(Failed(got.error), Idle(r.data))
  }

  ghost predicate AllPending(t: Table, show: ShowSlug, ids: seq<EpisodeId>) {
    forall id :: id in ids ==> Key(show, id) in t && CanTransition(t[Key(show, id)].state, Downloading)
  }

  lemma DownloadOneRow(hash: Bytes -> Hash, w: World, key: Key, up: Upstream)
    requires Allowed(w.table, key, Downloading)
    ensures DownloadOne(hash, w, key, up).table == w.table[key := RowAfter(hash, w.table[key], key, up)]
    ensures DownloadOne(hash, w, key, up).files ==
            (var got := Fetched(hash, key, up);
             if got.Success? then w.files[got.value.file.filePath := got.value.body] else w.files)
  {
  }

  /** Downloads of distinct rows each change their own row only, as if done alone. */
  lemma {:induction false} DownloadRow(
    hash: Bytes -> Hash, w: World, show: ShowSlug, ids: seq<EpisodeId>, up: Upstream, key: Key)
    requires Distinct(ids) && AllPending(w.table, show, ids)
    ensures var t := Downloads(hash, w, show, ids, up).table;
            && (key in t <==> key in w.table)
            && (key in t ==> t[key] == if key.show == show && key.id in ids then RowAfter(hash, w.table[key], key, up) else w.table[key])
  {
    if ids != [] {
      var n := |ids| - 1;
      var last := Key(show, ids[n]);
      assert ids == ids[..n] + [ids[n]];
      DownloadRow(hash, w, show, ids[..n], up, key);
      DownloadRow(hash, w, show, ids[..n], up, last);
      assert ids[n] in ids && ids[n] !in ids[..n];
      DownloadOneRow(hash, Downloads(hash, w, show, ids[..n], up), last, up);
    }
  }

  /** The last of a list of downloads writes its own row into the table of the others. */
  lemma DownloadsStep(hash: Bytes -> Hash, w: World, show: ShowSlug, ids: seq<EpisodeId>, up: Upstream)
    requires Distinct(ids) && AllPending(w.table, show, ids) && ids != []
    ensures var n := |ids| - 1;
            var key, t := Key(show, ids[n]), Downloads(hash, w, show, ids[..n], up).table;
            && AllPending(w.table, show, ids[..n]) && Distinct(ids[..n])
            && key in t && t[key] == w.table[key]
            && Downloads(hash, w, show, ids, up).table == t[key := RowAfter(hash, w.table[key], key, up)]
  {
    var n := |ids| - 1;
    var last := Key(show, ids[n]);
    assert ids == ids[..n] + [ids[n]];
    assert ids[n] in ids && ids[n] !in ids[..n];
    DownloadRow(hash, w, show, ids[..n], up, last);
    DownloadOneRow(hash, Downloads(hash, w, show, ids[..n], up), last, up);
  }

  ghost predicate Delivers(hash: Bytes -> Hash, key: Key, up: Upstream, p: Path) {
    Fetched(hash, key, up).Success? && Fetched(hash, key, up).value.file.filePath == p
  }

  ghost predicate DistinctStems(show: ShowSlug, ids: seq<EpisodeId>) {
    forall i, j :: 0 <= i < j < |ids| ==> Stem(ids[i]) != Stem(ids[j])
  }

  /** Two episodes with different stems never deliver to one path. */
  lemma OneDeliverer(hash: Bytes -> Hash, a: Key, b: Key, up: Upstream, p: Path)
    requires Delivers(hash, a, up, p) && Delivers(hash, b, up, p)
    ensures a.show == b.show && Stem(a.id) == Stem(b.id)
  {
    FetchedFile(hash, a, up);
    FetchedFile(hash, b, up);
    OwnersShareStem(a, b, p);
  }

  /** The last of a list of downloads writes its own file, if any, beside those of the others. */
  lemma DownloadsFileStep(hash: Bytes -> Hash, w: World, show: ShowSlug, ids: seq<EpisodeId>, up: Upstream, p: Path)
    requires Distinct(ids) && AllPending(w.table, show, ids) && ids != []
    ensures var key, before := Key(show, ids[|ids| - 1]), Downloads(hash, w, show, ids[..|ids| - 1], up).files;
            var files := Downloads(hash, w, show, ids, up).files;
            if Delivers(hash, key, up, p) then p in files && files[p] == Fetched(hash, key, up).value.body
            else (p in files <==> p in before) && (p in files ==> files[p] == before[p])
  {
    var n := |ids| - 1;
    var last := Key(show, ids[n]);
    assert ids == ids[..n] + [ids[n]];
    assert ids[n] in ids && ids[n] !in ids[..n];
    DownloadRow(hash, w, show, ids[..n], up, last);
    DownloadOneRow(hash, Downloads(hash, w, show, ids[..n], up), last, up);
  }

  /** A delivered body is what the path holds in the end. */
  lemma {:induction false} DeliveredFile(
    hash: Bytes -> Hash, w: World, show: ShowSlug, ids: seq<EpisodeId>, up: Upstream, id: EpisodeId, p: Path)
    requires Distinct(ids) && DistinctStems(show, ids) && AllPending(w.table, show, ids)
    requires id in ids && Delivers(hash, Key(show, id), up, p)
    ensures p in Downloads(hash, w, show, ids, up).files
    ensures Downloads(hash, w, show, ids, up).files[p] == Fetched(hash, Key(show, id), up).value.body
  {
    var n := |ids| - 1;
    DownloadsFileStep(hash, w, show, ids, up, p);
    if id != ids[n] {
      LastDeliversElsewhere(hash, show, ids, up, id, p);
      OneFewer(w.table, show, ids);
      DeliveredFile(hash, w, show, ids[..n], up, id, p);
    }
  }

  lemma OneFewer(t: Table, show: ShowSlug, ids: seq<EpisodeId>)
    requires ids != [] && Distinct(ids) && DistinctStems(show, ids) && AllPending(t, show, ids)
    ensures var rest := ids[..|ids| - 1];
            && Distinct(rest) && DistinctStems(show, rest) && AllPending(t, show, rest)
            && forall id :: id in ids && id != ids[|ids| - 1] ==> id in rest
  {
    assert ids == ids[..|ids| - 1] + [ids[|ids| - 1]];
  }

  lemma LastDeliversElsewhere(
    hash: Bytes -> Hash, show: ShowSlug, ids: seq<EpisodeId>, up: Upstream, id: EpisodeId, p: Path)
    requires ids != [] && DistinctStems(show, ids) && id in ids && id != ids[|ids| - 1]
    requires Delivers(hash, Key(show, id), up, p)
    ensures !Delivers(hash, Key(show, ids[|ids| - 1]), up, p)
  {
    var i :| 0 <= i < |ids| && ids[i] == id;
    assert Stem(ids[i]) != Stem(ids[|ids| - 1]);
    if Delivers(hash, Key(show, ids[|ids| - 1]), up, p) {
      OneDeliverer(hash, Key(show, id), Key(show, ids[|ids| - 1]), up, p);
    }
  }

  /** A path nobody delivers to keeps what it held. */
  lemma {:induction false} UndeliveredFile(
    hash: Bytes -> Hash, w: World, show: ShowSlug, ids: seq<EpisodeId>, up: Upstream, p: Path)
    requires Distinct(ids) && AllPending(w.table, show, ids)
    requires forall id :: id in ids ==> !Delivers(hash, Key(show, id), up, p)
    ensures var files := Downloads(hash, w, show, ids, up).files;
            (p in files <==> p in w.files) && (p in files ==> files[p] == w.files[p])
  {
    if ids != [] {
      var n := |ids| - 1;
      assert ids == ids[..n] + [ids[n]];
      assert ids[n] in ids && forall id :: id in ids[..n] ==> id in ids;
      DownloadsFileStep(hash, w, show, ids, up, p);
      UndeliveredFile(hash, w, show, ids[..n], up, p);
    }
  }

  /** The successes among distinct pending rows are the ones whose audio arrives. */
  lemma {:induction false} DownloadedStep(hash: Bytes -> Hash, w: World, show: ShowSlug, ids: seq<EpisodeId>, up: Upstream)
    requires Distinct(ids) && AllPending(w.table, show, ids) && ids != []
    ensures var n := |ids| - 1;
            DownloadedCount(hash, w, show, ids, up)
            == DownloadedCount(hash, w, show, ids[..n], up) + if Fetched(hash, Key(show, ids[n]), up).Success? then 1 else 0
  {
    var n := |ids| - 1;
    assert ids == ids[..n] + [ids[n]];
    assert ids[n] in ids && ids[n] !in ids[..n];
    DownloadRow(hash, w, show, ids[..n], up, Key(show, ids[n]));
  }

  /** Pending rows are distinct when the window is, and may all start downloading. */
  lemma PendingMembers(t: Table, show: ShowSlug, policy: Policy, window: seq<EpisodeId>)
    ensures forall id :: id in Pending(t, show, policy, window) <==>
              id in Wanted(t, show, policy, window) && id in window && IsPending(t, Key(show, id))
    ensures AllPending(t, show, Pending(t, show, policy, window))
    ensures Distinct(window) ==> Distinct(Pending(t, show, policy, window))
  {
    OnlyMembers(window, Wanted(t, show, policy, window) * PendingIds(t, show, window));
  }
}
