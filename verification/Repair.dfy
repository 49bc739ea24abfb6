/** What `verify` finds, and what `verify --fix` leaves behind. */
module Repair {
  import opened Wrappers
  import opened Domain
  import opened Retention
  import opened Episodes
  import opened Download
  import opened World
  import opened Rows
  import opened Agreement

  /** The file is there and matches every recorded fact. */
  ghost predicate Intact(hash: Bytes -> Hash, files: Files, c: Columns) {
    && c.filePath.Some? && c.filePath.value in files
    && (c.bytes.Some? ==> |files[c.filePath.value]| == c.bytes.value)
    && (c.blake3.Some? ==> hash(files[c.filePath.value]) == c.blake3.value)
  }

  ghost predicate Readable(up: Upstream) {
    forall p :: !up.statFails(p) && !up.readFails(p)
  }

  /** What a check reports, on any disk: an unreadable file wherever its status or, once the size fits,
      its contents cannot be read; otherwise the first of missing, size and hash that applies. */
  lemma CheckFileExactly(hash: Bytes -> Hash, files: Files, c: Columns, up: Upstream)
    ensures c.filePath.None? ==> CheckFile(hash, files, c, up) == Some(Missing)
    ensures c.filePath.Some? ==>
              var p, r := c.filePath.value, CheckFile(hash, files, c, up);
              && (r == Some(Unreadable) <==>
                    up.statFails(p)
                    || (p in files && (c.bytes.Some? ==> |files[p]| == c.bytes.value) && c.blake3.Some? && up.readFails(p)))
              && (r == Some(Missing) <==> !up.statFails(p) && p !in files)
              && (!up.statFails(p) && p in files && c.bytes.Some? && |files[p]| != c.bytes.value ==>
                    r == Some(SizeMismatch(c.bytes.value, |files[p]|)))
              && (r == Some(HashMismatch) <==>
                    !up.statFails(p) && p in files && (c.bytes.Some? ==> |files[p]| == c.bytes.value)
                    && c.blake3.Some? && !up.readFails(p) && hash(files[p]) != c.blake3.value)
  {
  }

  /** On a readable disk, a row is reported exactly when its file is missing or differs in
      size or hash, and with the first of these that applies. */
  lemma CheckIsExact(hash: Bytes -> Hash, files: Files, c: Columns, up: Upstream)
    requires Readable(up)
    ensures var problem := CheckFile(hash, files, c, up);
            && (problem.None? <==> Intact(hash, files, c))
            && (problem == Some(Missing) <==> c.filePath.None? || c.filePath.value !in files)
            && (problem.Some? && problem.value.SizeMismatch? ==>
                  c.bytes == Some(problem.value.expected) && problem.value.actual == |files[c.filePath.value]| != problem.value.expected)
            && (problem == Some(HashMismatch) ==>
                  (c.bytes.Some? ==> |files[c.filePath.value]| == c.bytes.value)
                  && c.blake3.Some? && hash(files[c.filePath.value]) != c.blake3.value)
            && problem != Some(Unreadable)
  {
    if c.filePath.Some? { assert !up.statFails(c.filePath.value) && !up.readFails(c.filePath.value); }
  }

  // ----- each row on its own -----

  /** Repairing other episodes changes neither a row nor what a check of its file says. */
  lemma {:induction false} OthersKeepCheck(
    hash: Bytes -> Hash, w: World, show: ShowSlug, ids: seq<EpisodeId>, fix: bool, up: Upstream, key: Key)
    requires StemsApart(w.table) && key in w.table && RowPlaced(w.table, key)
    requires key.show == show ==> key.id !in ids
    ensures var w' := Verified(hash, w, show, ids, fix, up);
            && w'.table.Keys == w.table.Keys
            && w'.table[key] == w.table[key]
            && forall up': Upstream ::
                 CheckFile(hash, w'.files, w.table[key].data, up') == CheckFile(hash, w.files, w.table[key].data, up')
  {
    if ids != [] {
      var n := |ids| - 1;
      assert ids == ids[..n] + [ids[n]];
      assert ids[n] in ids;
      OthersKeepCheck(hash, w, show, ids[..n], fix, up, key);
      VerifyKeys(hash, w, show, ids, fix, up);
      DownloadKeepsOther(hash, Verified(hash, w, show, ids[..n], fix, up), Key(show, ids[n]), up, key);
    }
  }

  lemma DownloadKeepsOther(hash: Bytes -> Hash, w: World, key: Key, up: Upstream, other: Key)
    requires StemsApart(w.table) && other in w.table && RowPlaced(w.table, other) && other != key
    ensures var w' := DownloadOne(hash, w, key, up);
            && other in w'.table && w'.table[other] == w.table[other]
            && forall up': Upstream ::
                 CheckFile(hash, w'.files, w.table[other].data, up') == CheckFile(hash, w.files, w.table[other].data, up')
  {
    if Allowed(w.table, key, Downloading) {
      DownloadOneRow(hash, w, key, up);
      var got := Fetched(hash, key, up);
      if got.Success? && Some(got.value.file.filePath) == w.table[other].data.filePath {
        FetchedFile(hash, key, up);
        PathHasOneOwner(w.table, key, other, got.value.file.filePath);
      }
    }
  }

  /** The state of a cached row after a repairing pass over distinct ids: untouched when its
      file was fine, freshly cached and intact when its audio arrived, failed otherwise. */
  lemma {:induction false} RepairedRow(
    hash: Bytes -> Hash, w: World, show: ShowSlug, ids: seq<EpisodeId>, up: Upstream, key: Key)
    requires StemsApart(w.table) && Storable(hash, up)
    requires Distinct(ids) && key.show == show && key.id in ids
    requires IsCached(w.table, key) && RowPlaced(w.table, key)
    ensures var w', got := Verified(hash, w, show, ids, true, up), Fetched(hash, key, up);
            && key in w'.table
            && (!Damaged(hash, w, key, up) ==>
                  w'.table[key] == w.table[key]
                  && forall up': Upstream :: CheckFile(hash, w'.files, w.table[key].data, up') == CheckFile(hash, w.files, w.table[key].data, up'))
            && (Damaged(hash, w, key, up) && got.Success? ==>
                  w'.table[key].state == Cached && FileOk(hash, w'.files, key, w'.table[key].data))
            && (Damaged(hash, w, key, up) && got.Failure? ==> w'.table[key].state == Failed(got.error))
  {
    var n := |ids| - 1;
    var last, before := Key(show, ids[n]), Verified(hash, w, show, ids[..n], true, up);
    assert ids == ids[..n] + [ids[n]];
    assert ids[n] in ids && ids[n] !in ids[..n];
    VerifyKeys(hash, w, show, ids[..n], true, up);
    if key == last {
      OthersKeepCheck(hash, w, show, ids[..n], true, up, key);
      if Damaged(hash, w, key, up) {
        DownloadOneRow(hash, before, key, up);
        if Fetched(hash, key, up).Success? { FetchedAgrees(hash, before.files, before.table[key], key, up); }
      }
    } else {
      RepairedRow(hash, w, show, ids[..n], up, key);
      if Damaged(hash, before, last, up) { RepairedStays(hash, w, before, last, up, key); }
    }
  }

  /** Once settled, a row stays settled while another one is repaired. */
  lemma RepairedStays(hash: Bytes -> Hash, w: World, before: World, key: Key, up: Upstream, other: Key)
    requires StemsApart(w.table) && before.table.Keys == w.table.Keys
    requires other in w.table && other != key && RowPlaced(w.table, other)
    ensures var w' := DownloadOne(hash, before, key, up);
            && other in w'.table && w'.table[other] == before.table[other]
            && (before.table[other] == w.table[other] ==> forall up': Upstream ::
                  CheckFile(hash, w'.files, w.table[other].data, up') == CheckFile(hash, before.files, w.table[other].data, up'))
            && (FileOk(hash, before.files, other, before.table[other].data) ==>
                  FileOk(hash, w'.files, other, before.table[other].data))
  {
    if before.table[other] == w.table[other] { DownloadKeepsOther(hash, before, key, up, other); }
    if FileOk(hash, before.files, other, before.table[other].data) {
      if Allowed(before.table, key, Downloading) {
        DownloadOneRow(hash, before, key, up);
        var got := Fetched(hash, key, up);
        if got.Success? && Some(got.value.file.filePath) == before.table[other].data.filePath {
          FetchedFile(hash, key, up);
          PathHasOneOwner(before.table, key, other, got.value.file.filePath);
        }
      }
    }
  }

  // ----- the report -----

  /** The outcomes of `ids`, each judged in the state `w`. */
  ghost function Findings(
    hash: Bytes -> Hash, w: World, show: ShowSlug, ids: seq<EpisodeId>, fix: bool, up: Upstream): seq<VerifyOutcome>
    requires forall id :: id in ids ==> Key(show, id) in w.table
  {
    if ids == [] then []
    else
      var n := |ids| - 1;
      var key := Key(show, ids[n]);
      assert ids[n] in ids;
      Findings(hash, w, show, ids[..n], fix, up)
      + var problem := CheckFile(hash, w.files, w.table[key].data, up);
        if problem.Some? then [VerifyOutcome(ids[n], problem.value, fix && Fetched(hash, key, up).Success?)] else []
  }

  /** Whatever it repairs along the way, a verify reports each cached row as it was found: one
      outcome per damaged file, in order, marked fixed exactly when `fix` was asked for and
      the audio arrived. */
  lemma {:induction false} ProblemsAreTheFindings(
    hash: Bytes -> Hash, w: World, show: ShowSlug, ids: seq<EpisodeId>, fix: bool, up: Upstream)
    requires StemsApart(w.table) && Distinct(ids) && AllCached(w.table, show, ids)
    requires forall id :: id in ids ==> RowPlaced(w.table, Key(show, id))
    ensures Problems(hash, w, show, ids, fix, up) == Findings(hash, w, show, ids, fix, up)
  {
    if ids != [] {
      var n := |ids| - 1;
      assert ids == ids[..n] + [ids[n]];
      assert forall id :: id in ids[..n] ==> id in ids;
      assert ids[n] in ids && ids[n] !in ids[..n];
      ProblemsAreTheFindings(hash, w, show, ids[..n], fix, up);
      JudgedAsFound(hash, w, show, ids, fix, up);
    }
  }

  /** The last of a list of rows is judged as if it were the first. */
  lemma JudgedAsFound(hash: Bytes -> Hash, w: World, show: ShowSlug, ids: seq<EpisodeId>, fix: bool, up: Upstream)
    requires StemsApart(w.table) && ids != [] && Distinct(ids)
    requires var key := Key(show, ids[|ids| - 1]); IsCached(w.table, key) && RowPlaced(w.table, key)
    ensures var key := Key(show, ids[|ids| - 1]);
            var before := Verified(hash, w, show, ids[..|ids| - 1], fix, up);
            && (Damaged(hash, before, key, up) <==> CheckFile(hash, w.files, w.table[key].data, up).Some?)
            && key in before.table
            && CheckFile(hash, before.files, before.table[key].data, up) == CheckFile(hash, w.files, w.table[key].data, up)
            && (Arrives(hash, before.table, key, up) <==> Fetched(hash, key, up).Success?)
  {
    OthersKeepCheck(hash, w, show, ids[..|ids| - 1], fix, up, Key(show, ids[|ids| - 1]));
  }

  /** Without `fix` nothing changes. */
  lemma {:induction false} CheckingChangesNothing(hash: Bytes -> Hash, w: World, show: ShowSlug, ids: seq<EpisodeId>, up: Upstream)
    ensures Verified(hash, w, show, ids, false, up) == w
  {
    if ids != [] { CheckingChangesNothing(hash, w, show, ids[..|ids| - 1], up); }
  }

  lemma {:induction false} NoFindings(hash: Bytes -> Hash, w: World, show: ShowSlug, ids: seq<EpisodeId>, fix: bool, up: Upstream)
    requires forall id :: id in ids ==> Key(show, id) in w.table && CheckFile(hash, w.files, w.table[Key(show, id)].data, up).None?
    ensures Findings(hash, w, show, ids, fix, up) == []
  {
    if ids != [] {
      assert ids[|ids| - 1] in ids;
      NoFindings(hash, w, show, ids[..|ids| - 1], fix, up);
    }
  }

  // ----- repairing -----

  /** After a repairing verify in which every fix succeeded, those of unreadable files included, an
      immediate second verify of a readable disk finds no problem. */
  lemma SecondVerifyIsClean(hash: Bytes -> Hash, w: World, show: ShowSlug, fix: bool, up: Upstream, again: Upstream)
    requires StemsApart(w.table) && Storable(hash, up) && Readable(again)
    requires forall key :: key in w.table ==> RowPlaced(w.table, key)
    requires forall id: EpisodeId :: Damaged(hash, w, Key(show, id), up) ==> Fetched(hash, Key(show, id), up).Success?
    ensures var w' := Verified(hash, w, show, CachedInOrder(w.table, show), true, up);
            Problems(hash, w', show, CachedInOrder(w'.table, show), fix, again) == []
  {
    var ids := CachedInOrder(w.table, show);
    var w' := Verified(hash, w, show, ids, true, up);
    var ids' := CachedInOrder(w'.table, show);
    CachedMembers(w.table, show);
    CachedMembers(w'.table, show);
    assert Ids(CachedCandidates(w.table, show)) == ids && Ids(CachedCandidates(w'.table, show)) == ids';
    VerifyKeys(hash, w, show, ids, true, up);
    forall id: EpisodeId | id in ids'
      ensures var key := Key(show, id);
              IsCached(w'.table, key) && RowPlaced(w'.table, key) && CheckFile(hash, w'.files, w'.table[key].data, again).None?
    {
      CleanRow(hash, w, show, up, again, id);
    }
    ProblemsAreTheFindings(hash, w', show, ids', fix, again);
    NoFindings(hash, w', show, ids', fix, again);
  }

  lemma CleanRow(hash: Bytes -> Hash, w: World, show: ShowSlug, up: Upstream, again: Upstream, id: EpisodeId)
    requires StemsApart(w.table) && Storable(hash, up) && Readable(again)
    requires var key := Key(show, id);
             && (key in w.table ==> RowPlaced(w.table, key))
             && (Damaged(hash, w, key, up) ==> Fetched(hash, key, up).Success?)
             && IsCached(Verified(hash, w, show, CachedInOrder(w.table, show), true, up).table, key)
    ensures var key, w' := Key(show, id), Verified(hash, w, show, CachedInOrder(w.table, show), true, up);
            RowPlaced(w'.table, key) && CheckFile(hash, w'.files, w'.table[key].data, again).None?
  {
    var key, ids := Key(show, id), CachedInOrder(w.table, show);
    var w' := Verified(hash, w, show, ids, true, up);
    CachedMembers(w.table, show);
    assert Ids(CachedCandidates(w.table, show)) == ids;
    VerifyKeys(hash, w, show, ids, true, up);
    if id in ids {
      RepairedRow(hash, w, show, ids, up, key);
    } else {
      OthersKeepCheck(hash, w, show, ids, true, up, key);
    }
    CheckIsExact(hash, w'.files, w'.table[key].data, again);
  }

  /** A fix that fails leaves its row failed, for later syncs to retry. */
  lemma FailedFixIsRecorded(hash: Bytes -> Hash, w: World, show: ShowSlug, up: Upstream, id: EpisodeId)
    requires StemsApart(w.table) && Storable(hash, up)
    requires var key := Key(show, id);
             IsCached(w.table, key) && RowPlaced(w.table, key) && Damaged(hash, w, key, up) && Fetched(hash, key, up).Failure?
    ensures var key, w' := Key(show, id), Verified(hash, w, show, CachedInOrder(w.table, show), true, up);
            key in w'.table && w'.table[key].state == Failed(Fetched(hash, key, up).error)
  {
    CachedMembers(w.table, show);
    assert Ids(CachedCandidates(w.table, show)) == CachedInOrder(w.table, show);
    RepairedRow(hash, w, show, CachedInOrder(w.table, show), up, Key(show, id));
  }
}
