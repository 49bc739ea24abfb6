/** The library handle: configuration, database and media files, and the operations on them. */
module Library {
  import opened Wrappers
  import opened Domain
  import opened Retention
  import opened Episodes
  import opened Storage
  import opened Media
  import opened Download
  import opened World
  import opened Rows
  import opened Limits

  // ----- configuration -----

  datatype ShowConfig = ShowConfig(
    slug: ShowSlug, provider: string, fetchLast: Option<nat>, retention: Option<Policy>)

  datatype Config = Config(
    shows: seq<ShowConfig>, fetchLast: Option<nat>, retention: Policy, downloadConcurrency: nat)

  /** A per-show policy with its unset limits filled from the global one. */
  function LayeredOver(own: Policy, fallback: Policy): Policy {
    Policy(if own.keepLast.Some? then own.keepLast else fallback.keepLast,
           if own.maxBytes.Some? then own.maxBytes else fallback.maxBytes)
  }

  function PolicyFor(show: ShowConfig, config: Config): Policy {
    if show.retention.Some? then LayeredOver(show.retention.value, config.retention) else config.retention
  }

  function LimitFor(show: ShowConfig, config: Config): Option<nat> {
    if show.fetchLast.Some? then show.fetchLast else config.fetchLast
  }

  /** Each limit is the show's own where it sets one and the global one where it does not. */
  lemma OwnLimitsFirst(show: ShowConfig, config: Config)
    ensures var p := PolicyFor(show, config);
            && (show.retention.Some? && show.retention.value.keepLast.Some? ==> p.keepLast == show.retention.value.keepLast)
            && (show.retention.Some? && show.retention.value.maxBytes.Some? ==> p.maxBytes == show.retention.value.maxBytes)
            && (show.retention.None? || show.retention.value.keepLast.None? ==> p.keepLast == config.retention.keepLast)
            && (show.retention.None? || show.retention.value.maxBytes.None? ==> p.maxBytes == config.retention.maxBytes)
    ensures show.fetchLast.Some? ==> LimitFor(show, config) == show.fetchLast
    ensures show.fetchLast.None? ==> LimitFor(show, config) == config.fetchLast
  {
  }

  /** The first show configured under the slug. */
  function FindShow(shows: seq<ShowConfig>, slug: ShowSlug): (r: Option<ShowConfig>)
    ensures r.Some? ==> exists i :: 0 <= i < |shows| && shows[i] == r.value && r.value.slug == slug
                                    && forall j :: 0 <= j < i ==> shows[j].slug != slug
    ensures r.None? ==> forall j :: 0 <= j < |shows| ==> shows[j].slug != slug
  {
    if shows == [] then None
    else if shows[0].slug == slug then Some(shows[0])
    else FindShow(shows[1..], slug)
  }

  /** What a sync under the configured policy and limit comes to, in numbers. */
  lemma SyncInNumbers(hash: Bytes -> Hash, w: World, show: ShowConfig, config: Config, slug: ShowSlug, up: Upstream)
    ensures var policy, limit := PolicyFor(show, config), LimitFor(show, config);
            var t := Synced(hash, w, slug, policy, limit, up).table;
            && |t| == |w.table| + DiscoveredCount(w.table, slug, up)
            && (ListsShow(up) && (forall p: Path :: !up.refuses(p)) ==>
                  var kept, bytes := |CachedInOrder(t, slug)|, CachedBytes(t, slug);
                  && (policy.keepLast.Some? ==> kept <= policy.keepLast.value)
                  && (policy.maxBytes.Some? ==> kept <= 1 || bytes <= policy.maxBytes.value))
            && (ListsShow(up) && up.listing == Success(NotModified) && limit.Some? ==>
                  SettleDownloaded(hash, World(Listed(w.table, slug, up), w.files), slug, policy,
                                   Window(w.table, slug, limit, up), up) <= limit.value)
  {
    var policy, limit := PolicyFor(show, config), LimitFor(show, config);
    ReportedIsGrowth(hash, w, slug, policy, limit, up);
    if ListsShow(up) && (forall p: Path :: !up.refuses(p)) { SyncedWithinPolicy(hash, w, slug, policy, limit, up); }
    if ListsShow(up) && up.listing == Success(NotModified) && limit.Some? {
      UnchangedFetchesAtMost(hash, w, slug, policy, limit.value, up);
    }
  }

  datatype LibraryError = UnknownShow(slug: ShowSlug) | Provider(error: ProviderError)

  datatype EpisodeSyncError =
    | ProviderFailed(provider: ProviderError)
    | DownloadFailed(download: DownloadError)
    | StorageRefused(storage: StorageError)

  function SyncClass(e: EpisodeSyncError): ErrorClass {
    match e
    case ProviderFailed(p) => ProviderClass(p)
    case DownloadFailed(d) => Class(d)
    case StorageRefused(_) => Disk
  }

  class Library {
    const db: Database
    const disk: FileSystem
    const config: Config
    const hash: Bytes -> Hash

    constructor (db: Database, disk: FileSystem, config: Config, hash: Bytes -> Hash)
      ensures this.db == db && this.disk == disk && this.config == config && this.hash == hash
    {
      this.db, this.disk, this.config, this.hash := db, disk, config, hash;
    }

    ghost function State(): World
      reads db, disk
    {
      World(db.table, disk.files)
    }

    // ----- downloading -----

    method TryDownload(show: ShowSlug, episode: EpisodeRecord, up: Upstream) returns (r: Result<(), EpisodeSyncError>)
      requires db.Valid()
      requires var key := Key(show, episode.id);
               key in db.table && episode.record.data.durationSecs.Some? ==> db.table[key].data.durationSecs.Some?
      modifies db, disk
      ensures db.Valid() && disk.temps == old(disk.temps)
      ensures var key := Key(show, episode.id);
              && (!Allowed(old(db.table), key, Downloading) ==>
                    r.Failure? && r.error.StorageRefused? && State() == old(State()))
              && (Allowed(old(db.table), key, Downloading) ==>
                    var got := Fetched(hash, key, up);
                    if got.Failure? then
                      r.Failure? && SyncClass(r.error) == got.error
                      && State() == World(MarkDownloading(old(db.table), key), old(disk.files))
                    else r.Success? && State() == DownloadOne(hash, old(State()), key, up))
    {
      var key := Key(show, episode.id);
      var started := db.MarkDownloading(key);
      if started.Failure? { return Failure(StorageRefused(started.error)); }
      var source := up.resolve(episode.id);
      if source.Failure? { return Failure(ProviderFailed(source.error)); }
      var dest := MediaPath(key, source.value);
      var got, _ := Fetch(disk, hash, source.value, dest, up.exchanges(episode.id));
      if got.Failure? { return Failure(DownloadFailed(got.error)); }
      var duration := if episode.record.data.durationSecs.Some? then None else up.probe(episode.id);
      var file := CachedFile(dest, got.value.bytes, got.value.blake3, got.value.mime, duration);
      var recorded := db.MarkCached(key, file, up.finished(episode.id));
      assert recorded.Success?;
      return Success(());
    }

    /** Download one episode end to end and record the outcome, success or failure. */
    method DownloadEpisode(show: ShowSlug, episode: EpisodeRecord, up: Upstream) returns (ok: bool)
      requires db.Valid()
      requires var key := Key(show, episode.id);
               key in db.table && episode.record.data.durationSecs.Some? ==> db.table[key].data.durationSecs.Some?
      modifies db, disk
      ensures db.Valid() && disk.temps == old(disk.temps)
      ensures State() == DownloadOne(hash, old(State()), Key(show, episode.id), up)
      ensures ok == Arrives(hash, old(db.table), Key(show, episode.id), up)
    {
      var outcome := TryDownload(show, episode, up);
      if outcome.Failure? {
        var _ := db.MarkFailed(Key(show, episode.id), SyncClass(outcome.error));
      }
      ok := outcome.Success?;
    }

    // ----- retention -----

    /** Prune what the policy rejects among the cached rows, oldest first. */
    method ApplyRetention(show: ShowSlug, policy: Policy, up: Upstream) returns (freed: Tally)
      requires db.Valid()
      modifies db, disk
      ensures db.Valid() && disk.temps == old(disk.temps)
      ensures var ids := PrunePlan(old(db.table), show, policy);
              && State() == Prune(old(State()), show, ids, up)
              && freed == PruneFreed(old(State()), show, ids, up)
    {
      var listed := db.EpisodesOf(show);
      var cached := CachedOf(listed.value, db.table, show);
      var plan := Plan(policy, cached);
      PlanMembers(db.table, show, policy);
      var doomed := FindAll(listed.value, db.table, show, plan);
      freed := PruneAll(show, doomed, up);
    }

    method PruneAll(show: ShowSlug, doomed: seq<EpisodeRecord>, up: Upstream) returns (freed: Tally)
      requires db.Valid() && AreRows(doomed, db.table, show)
      requires Distinct(RecordIds(doomed)) && AllCached(db.table, show, RecordIds(doomed))
      modifies db, disk
      ensures db.Valid() && disk.temps == old(disk.temps)
      ensures State() == Prune(old(State()), show, RecordIds(doomed), up)
      ensures freed == PruneFreed(old(State()), show, RecordIds(doomed), up)
    {
      ghost var w, ids := State(), RecordIds(doomed);
      freed := Tally(0, 0);
      for i := 0 to |doomed|
        invariant db.Valid() && disk.temps == old(disk.temps)
        invariant State() == Prune(w, show, ids[..i], up)
        invariant freed == PruneFreed(w, show, ids[..i], up)
      {
        PruneSnapshot(w, show, ids, i, up);
        var done := PruneEpisode(show, doomed[i], up);
        if done { freed := Tally(freed.count + 1, freed.bytes + doomed[i].record.data.bytes.GetOr(0)); }
      }
      assert ids[..|ids|] == ids;
    }

    /** Delete the file, then mark the row; a file that cannot be deleted keeps its row. */
    method PruneEpisode(show: ShowSlug, episode: EpisodeRecord, up: Upstream) returns (done: bool)
      requires db.Valid()
      requires var key := Key(show, episode.id); IsCached(db.table, key) && db.table[key] == episode.record
      modifies db, disk
      ensures db.Valid() && disk.temps == old(disk.temps)
      ensures State() == PruneOne(old(State()), Key(show, episode.id), up)
      ensures done == !Skipped(old(db.table), Key(show, episode.id), up)
    {
      var file := episode.record.data.filePath;
      if file.Some? {
        if up.refuses(file.value) { return false; }
        disk.files := disk.files - {file.value};
      }
      var marked := db.MarkPruned(Key(show, episode.id));
      assert marked.Success?;
      return true;
    }

    // ----- sync -----

    /** Poll one show: heal, list, discover, download what retention will keep, prune. */
    method Sync(slug: ShowSlug, up: Upstream) returns (r: Result<SyncReport, LibraryError>, bytesFreed: nat)
      requires db.Valid()
      modifies db, disk
      ensures db.Valid() && disk.temps == old(disk.temps)
      ensures FindShow(config.shows, slug).None? ==> r == Failure(UnknownShow(slug)) && State() == old(State())
      ensures FindShow(config.shows, slug).Some? ==>
                var show := FindShow(config.shows, slug).value;
                var policy, limit := PolicyFor(show, config), LimitFor(show, config);
                && State() == Synced(hash, old(State()), slug, policy, limit, up)
                && (r.Success? <==> ListsShow(up))
                && (r.Success? ==>
                      var listed := World(Listed(old(db.table), slug, up), old(disk.files));
                      var window := Window(old(db.table), slug, limit, up);
                      var freed := SettleFreed(hash, listed, slug, policy, window, up);
                      && r.value == SyncReport(DiscoveredCount(old(db.table), slug, up),
                                               SettleDownloaded(hash, listed, slug, policy, window, up), freed.count)
                      && bytesFreed == freed.bytes)
      // The outcome in numbers: rows that are new, and the show's own limits before the global ones
      ensures r.Success? ==> |db.table| == |old(db.table)| + r.value.discovered
      ensures r.Success? && (forall p: Path :: !up.refuses(p)) ==>
                var own, rest := FindShow(config.shows, slug).value.retention, config.retention;
                var kept, bytes := |CachedInOrder(db.table, slug)|, CachedBytes(db.table, slug);
                && (own.Some? && own.value.keepLast.Some? ==> kept <= own.value.keepLast.value)
                && ((own.None? || own.value.keepLast.None?) && rest.keepLast.Some? ==> kept <= rest.keepLast.value)
                && (own.Some? && own.value.maxBytes.Some? ==> kept <= 1 || bytes <= own.value.maxBytes.value)
                && ((own.None? || own.value.maxBytes.None?) && rest.maxBytes.Some? ==> kept <= 1 || bytes <= rest.maxBytes.value)
      ensures r.Success? && up.listing == Success(NotModified) ==>
                var own, rest := FindShow(config.shows, slug).value.fetchLast, config.fetchLast;
                && (own.Some? ==> r.value.downloaded <= own.value)
                && (own.None? && rest.Some? ==> r.value.downloaded <= rest.value)
    {
      bytesFreed := 0;
      var found := FindShow(config.shows, slug);
      if found.None? { return Failure(UnknownShow(slug)), 0; }
      var policy, limit := PolicyFor(found.value, config), LimitFor(found.value, config);
      SyncInNumbers(hash, State(), found.value, config, slug, up);
      var listed := ListShow(slug, limit, up);
      if listed.Failure? { return Failure(Provider(listed.error)), 0; }
      var downloaded, freed := SettleWindow(slug, policy, listed.value.0, up);
      return Success(SyncReport(listed.value.1, downloaded, freed.count)), freed.bytes;
    }

    /** Heal leftovers, fetch the listing, record it; answers the window and the count of news. */
    method ListShow(slug: ShowSlug, limit: Option<nat>, up: Upstream)
      returns (r: Result<(seq<EpisodeId>, nat), ProviderError>)
      requires db.Valid()
      modifies db
      ensures db.Valid() && db.table == Listed(old(db.table), slug, up)
      ensures r.Success? <==> ListsShow(up)
      ensures r.Success? ==> r.value == (Window(old(db.table), slug, limit, up), DiscoveredCount(old(db.table), slug, up))
    {
      var _ := db.ResetStaleDownloads(slug, up.cutoff);
      if up.listing.Failure? { return Failure(up.listing.error); }
      match up.listing.value {
        case Modified(episodes) =>
          if up.meta.Failure? { return Failure(up.meta.error); }
          var news := db.Discover(slug, episodes, up.now);
          return Success((ListedIds(episodes), |news|));
        case NotModified =>
          var stored := db.EpisodesOf(slug);
          OrderedRows(db.table, slug);
          assert RecordIds(stored.value) == Ordered(db.table, slug);
          return Success((Bounded(RecordIds(stored.value), limit), 0));
      }
    }

    /** The part of a sync after its window is known. */
    method SettleWindow(slug: ShowSlug, policy: Policy, window: seq<EpisodeId>, up: Upstream)
      returns (downloaded: nat, freed: Tally)
      requires db.Valid()
      modifies db, disk
      ensures db.Valid() && disk.temps == old(disk.temps)
      ensures State() == Settle(hash, old(State()), slug, policy, window, up)
      ensures downloaded == SettleDownloaded(hash, old(State()), slug, policy, window, up)
      ensures freed == SettleFreed(hash, old(State()), slug, policy, window, up)
    {
      var listed := db.EpisodesOf(slug);
      var pending := PlanDownloads(listed.value, db.table, slug, policy, window);
      downloaded := DownloadAll(slug, pending, up);
      freed := ApplyRetention(slug, policy, up);
    }

    /** Download every pending episode; one failure never stops the rest. */
    method DownloadAll(slug: ShowSlug, pending: seq<EpisodeRecord>, up: Upstream) returns (count: nat)
      requires db.Valid()
      requires AreRows(pending, db.table, slug)
      modifies db, disk
      ensures db.Valid() && disk.temps == old(disk.temps)
      ensures State() == Downloads(hash, old(State()), slug, RecordIds(pending), up)
      ensures count == DownloadedCount(hash, old(State()), slug, RecordIds(pending), up)
    {
      count := 0;
      ghost var w, ids := State(), RecordIds(pending);
      for i := 0 to |pending|
        invariant db.Valid() && disk.temps == old(disk.temps)
        invariant State() == Downloads(hash, w, slug, ids[..i], up)
        invariant count == DownloadedCount(hash, w, slug, ids[..i], up)
      {
        DownloadStep(hash, w, slug, ids, i, up);
        DurationStays(hash, w, slug, ids[..i], up, Key(slug, ids[i]));
        var ok := DownloadEpisode(slug, pending[i], up);
        count := count + if ok then 1 else 0;
      }
      assert ids[..|ids|] == ids;
    }

    // ----- verify -----

    /** Check every cached episode against its record; with `fix`, fetch damaged ones again. */
    method Verify(slug: ShowSlug, fix: bool, up: Upstream) returns (r: Result<VerifyReport, LibraryError>)
      requires db.Valid()
      modifies db, disk
      ensures db.Valid() && disk.temps == old(disk.temps)
      ensures fix && FindShow(config.shows, slug).None? ==> r == Failure(UnknownShow(slug)) && State() == old(State())
      ensures !(fix && FindShow(config.shows, slug).None?) ==>
                var ids := CachedInOrder(old(db.table), slug);
                var problems := Problems(hash, old(State()), slug, ids, fix, up);
                && State() == Verified(hash, old(State()), slug, ids, fix, up)
                && |problems| <= |ids|
                && r == Success(VerifyReport(|ids|, |ids| - |problems|, problems))
    {
      if fix && FindShow(config.shows, slug).None? { return Failure(UnknownShow(slug)); }
      var report := VerifyCached(slug, fix, up);
      return Success(report);
    }

    method VerifyCached(slug: ShowSlug, fix: bool, up: Upstream) returns (report: VerifyReport)
      requires db.Valid()
      modifies db, disk
      ensures db.Valid() && disk.temps == old(disk.temps)
      ensures var ids := CachedInOrder(old(db.table), slug);
              var problems := Problems(hash, old(State()), slug, ids, fix, up);
              && State() == Verified(hash, old(State()), slug, ids, fix, up)
              && |problems| <= |ids|
              && report == VerifyReport(|ids|, |ids| - |problems|, problems)
    {
      var cached := CachedEpisodes(slug);
      var problems := VerifyAll(slug, cached, fix, up);
      report := VerifyReport(|cached|, |cached| - |problems|, problems);
    }

    method CachedEpisodes(slug: ShowSlug) returns (cached: seq<EpisodeRecord>)
      requires db.Valid()
      ensures AreRows(cached, db.table, slug)
      ensures RecordIds(cached) == CachedInOrder(db.table, slug) && Distinct(RecordIds(cached))
    {
      var listed := db.EpisodesOf(slug);
      cached := CachedRecords(listed.value, db.table, slug);
      CachedInOrderIsDistinct(db.table, slug);
    }

    method VerifyAll(slug: ShowSlug, cached: seq<EpisodeRecord>, fix: bool, up: Upstream) returns (problems: seq<VerifyOutcome>)
      requires db.Valid() && AreRows(cached, db.table, slug) && Distinct(RecordIds(cached))
      modifies db, disk
      ensures db.Valid() && disk.temps == old(disk.temps)
      ensures State() == Verified(hash, old(State()), slug, RecordIds(cached), fix, up)
      ensures problems == Problems(hash, old(State()), slug, RecordIds(cached), fix, up)
      ensures |problems| <= |cached|
    {
      ghost var w, ids := State(), RecordIds(cached);
      problems := [];
      for i := 0 to |cached|
        invariant db.Valid() && disk.temps == old(disk.temps)
        invariant State() == Verified(hash, w, slug, ids[..i], fix, up)
        invariant problems == Problems(hash, w, slug, ids[..i], fix, up)
        invariant |problems| <= i
      {
        VerifySnapshot(hash, w, slug, ids, i, fix, up);
        VerifyStep(hash, w, slug, ids, i, fix, up);
        var outcome := VerifyEpisode(slug, cached[i], fix, up);
        if outcome.Some? { problems := problems + [outcome.value]; }
      }
      assert ids[..|ids|] == ids;
    }

    method VerifyEpisode(slug: ShowSlug, episode: EpisodeRecord, fix: bool, up: Upstream) returns (r: Option<VerifyOutcome>)
      requires db.Valid()
      requires var key := Key(slug, episode.id); key in db.table && db.table[key] == episode.record
      modifies db, disk
      ensures db.Valid() && disk.temps == old(disk.temps)
      ensures State() == VerifyOne(hash, old(State()), Key(slug, episode.id), fix, up)
      ensures r == OutcomeOf(hash, old(State()), Key(slug, episode.id), fix, up)
    {
      var problem := CheckFile(hash, disk.files, episode.record.data, up);
      if problem.None? { return None; }
      var fixed := false;
      if fix { fixed := DownloadEpisode(slug, episode, up); }
      return Some(VerifyOutcome(episode.id, problem.value, fixed));
    }
  }

  // ----- reading query answers -----

  function RecordIds(records: seq<EpisodeRecord>): (ids: seq<EpisodeId>)
    ensures |ids| == |records| && forall i :: 0 <= i < |ids| ==> ids[i] == records[i].id
  {
    seq(|records|, i requires 0 <= i < |records| => records[i].id)
  }

  ghost predicate AreRows(records: seq<EpisodeRecord>, t: Table, show: ShowSlug) {
    forall i :: 0 <= i < |records| ==>
      Key(show, records[i].id) in t && t[Key(show, records[i].id)] == records[i].record
  }

  function Find(records: seq<EpisodeRecord>, id: EpisodeId): Option<EpisodeRecord> {
    if records == [] then None
    else if records[0].id == id then Some(records[0])
    else Find(records[1..], id)
  }

  lemma {:induction false} FindFirst(records: seq<EpisodeRecord>, id: EpisodeId)
    ensures Find(records, id).Some? <==> exists i :: 0 <= i < |records| && records[i].id == id
    ensures Find(records, id).Some? ==> Find(records, id).value in records && Find(records, id).value.id == id
  {
    if records != [] {
      FindFirst(records[1..], id);
      if i :| 0 <= i < |records| && records[i].id == id {
        if i > 0 { assert records[1..][i - 1].id == id; }
      }
      if Find(records[1..], id).Some? {
        var i :| 0 <= i < |records| - 1 && records[1..][i].id == id;
        assert records[i + 1].id == id;
      }
    }
  }

  /** Looking an id up in a show's records is looking it up in the table. */
  lemma RecordsFind(t: Table, show: ShowSlug, id: EpisodeId)
    ensures Find(Records(t, show), id) ==
            if Key(show, id) in t then Some(EpisodeRecord(id, t[Key(show, id)])) else None
  {
    OrderedRows(t, show);
    var ids, records := Ordered(t, show), Records(t, show);
    FindFirst(records, id);
    if Key(show, id) in t {
      var i :| 0 <= i < |ids| && ids[i] == id;
      assert records[i].id == id;
    }
  }

  lemma CandidatesStep(t: Table, show: ShowSlug, ids: seq<EpisodeId>, id: EpisodeId)
    ensures Candidates(t, show, ids + [id]) == Candidates(t, show, ids) + [Candidate(id, SizeOf(t, Key(show, id)))]
  {
  }

  lemma OnlyStep(ids: seq<EpisodeId>, s: set<EpisodeId>, i: nat)
    requires i < |ids|
    ensures Only(ids[..i + 1], s) == if ids[i] in s then Only(ids[..i], s) + [ids[i]] else Only(ids[..i], s)
  {
    assert ids[..i + 1][..i] == ids[..i];
  }

  method CachedOf(records: seq<EpisodeRecord>, ghost t: Table, show: ShowSlug) returns (cs: seq<Candidate>)
    requires records == Records(t, show)
    ensures cs == CachedCandidates(t, show)
  {
    ghost var ids, s := Ordered(t, show), CachedIds(t, show);
    cs := [];
    for i := 0 to |records|
      invariant cs == Candidates(t, show, Only(ids[..i], s))
    {
      RecordAt(t, show, i);
      OnlyStep(ids, s, i);
      CandidatesStep(t, show, Only(ids[..i], s), ids[i]);
      if records[i].record.state.Cached? {
        cs := cs + [Candidate(records[i].id, records[i].record.data.bytes.GetOr(0))];
      }
    }
    assert ids[..|ids|] == ids;
  }

  /** The window as retention candidates, with recorded sizes where known. */
  method Project(records: seq<EpisodeRecord>, ghost t: Table, show: ShowSlug, window: seq<EpisodeId>)
    returns (candidates: seq<Candidate>)
    requires records == Records(t, show)
    ensures candidates == Candidates(t, show, window)
  {
    candidates := [];
    for i := 0 to |window|
      invariant candidates == Candidates(t, show, window[..i])
    {
      assert window[..i + 1] == window[..i] + [window[i]];
      RecordsFind(t, show, window[i]);
      CandidatesStep(t, show, window[..i], window[i]);
      var record := Find(records, window[i]);
      candidates := candidates + [Candidate(window[i], if record.Some? then record.value.record.data.bytes.GetOr(0) else 0)];
    }
    assert window[..|window|] == window;
  }

  method PlanDownloads(records: seq<EpisodeRecord>, ghost t: Table, show: ShowSlug, policy: Policy, window: seq<EpisodeId>)
    returns (pending: seq<EpisodeRecord>)
    requires records == Records(t, show)
    ensures RecordIds(pending) == Pending(t, show, policy, window)
    ensures AreRows(pending, t, show)
  {
    var candidates := Project(records, t, show, window);
    var kept, _ := Split(policy, candidates);
    var want := set id | id in kept;
    pending := SelectPending(records, t, show, want, window);
  }

  method SelectPending(
    records: seq<EpisodeRecord>, ghost t: Table, show: ShowSlug, want: set<EpisodeId>, window: seq<EpisodeId>)
    returns (pending: seq<EpisodeRecord>)
    requires records == Records(t, show)
    ensures RecordIds(pending) == Only(window, want * PendingIds(t, show, window))
    ensures AreRows(pending, t, show)
  {
    ghost var s := want * PendingIds(t, show, window);
    pending := [];
    for i := 0 to |window|
      invariant RecordIds(pending) == Only(window[..i], s)
      invariant AreRows(pending, t, show)
    {
      OnlyStep(window, s, i);
      FindsPending(t, show, want, window, i);
      var record := Find(records, window[i]);
      if window[i] in want && record.Some? && Fetchable(record.value.record.state) {
        AreRowsStep(pending, t, show, record.value);
        pending := pending + [record.value];
      }
    }
    assert window[..|window|] == window;
  }

  /** A window entry is wanted and pending exactly when its row is found in a fetchable state. */
  lemma FindsPending(t: Table, show: ShowSlug, want: set<EpisodeId>, window: seq<EpisodeId>, i: nat)
    requires i < |window|
    ensures var record := Find(Records(t, show), window[i]);
            && (window[i] in want * PendingIds(t, show, window)
                <==> window[i] in want && record.Some? && Fetchable(record.value.record.state))
            && (record.Some? ==> record.value.id == window[i] && Key(show, window[i]) in t
                                 && t[Key(show, window[i])] == record.value.record)
  {
    RecordsFind(t, show, window[i]);
  }

  method FindAll(records: seq<EpisodeRecord>, ghost t: Table, show: ShowSlug, ids: seq<EpisodeId>)
    returns (found: seq<EpisodeRecord>)
    requires records == Records(t, show) && forall id :: id in ids ==> Key(show, id) in t
    ensures RecordIds(found) == ids && AreRows(found, t, show)
  {
    found := [];
    for i := 0 to |ids|
      invariant RecordIds(found) == ids[..i] && AreRows(found, t, show)
    {
      RecordsFind(t, show, ids[i]);
      var record := Find(records, ids[i]).value;
      AreRowsStep(found, t, show, record);
      found := found + [record];
    }
  }

  /** While pruning works through its plan, a row still ahead is as it was listed. */
  lemma PruneSnapshot(w: World, show: ShowSlug, plan: seq<EpisodeId>, i: nat, up: Upstream)
    requires i < |plan| && Distinct(plan) && AllCached(w.table, show, plan)
    ensures var key, t := Key(show, plan[i]), Prune(w, show, plan[..i], up).table;
            && IsCached(t, key) && t[key] == w.table[key]
            && Prune(w, show, plan[..i + 1], up) == PruneOne(Prune(w, show, plan[..i], up), key, up)
            && PruneFreed(w, show, plan[..i + 1], up)
               == (var before := PruneFreed(w, show, plan[..i], up);
                   if Skipped(t, key, up) then before else Tally(before.count + 1, before.bytes + SizeOf(t, key)))
  {
    var key := Key(show, plan[i]);
    assert plan[i] in plan && plan[i] !in plan[..i];
    assert plan[..i + 1][..i] == plan[..i];
    PruneRow(w, show, plan[..i], up, key);
  }

  lemma DownloadStep(hash: Bytes -> Hash, w: World, show: ShowSlug, ids: seq<EpisodeId>, i: nat, up: Upstream)
    requires i < |ids|
    ensures var key, before := Key(show, ids[i]), Downloads(hash, w, show, ids[..i], up);
            && Downloads(hash, w, show, ids[..i + 1], up) == DownloadOne(hash, before, key, up)
            && DownloadedCount(hash, w, show, ids[..i + 1], up)
               == DownloadedCount(hash, w, show, ids[..i], up) + if Arrives(hash, before.table, key, up) then 1 else 0
  {
    assert ids[..i + 1][..i] == ids[..i];
  }

  /** Downloads never forget a duration. */
  lemma {:induction false} DurationStays(
    hash: Bytes -> Hash, w: World, show: ShowSlug, ids: seq<EpisodeId>, up: Upstream, key: Key)
    requires key in w.table
    ensures var t := Downloads(hash, w, show, ids, up).table;
            key in t && (w.table[key].data.durationSecs.Some? ==> t[key].data.durationSecs.Some?)
  {
    if ids != [] { DurationStays(hash, w, show, ids[..|ids| - 1], up, key); }
  }

  lemma RecordAt(t: Table, show: ShowSlug, i: nat)
    requires i < |Records(t, show)|
    ensures var ids := Ordered(t, show);
            && |ids| == |Records(t, show)|
            && Key(show, ids[i]) in t
            && Records(t, show)[i] == EpisodeRecord(ids[i], t[Key(show, ids[i])])
            && (ids[i] in CachedIds(t, show) <==> t[Key(show, ids[i])].state.Cached?)
  {
    OrderedRows(t, show);
    assert Ordered(t, show)[i] in Ordered(t, show);
  }

  lemma AreRowsStep(records: seq<EpisodeRecord>, t: Table, show: ShowSlug, r: EpisodeRecord)
    requires AreRows(records, t, show) && Key(show, r.id) in t && t[Key(show, r.id)] == r.record
    ensures AreRows(records + [r], t, show)
    ensures RecordIds(records + [r]) == RecordIds(records) + [r.id]
  {
  }

  lemma RecordsLength(t: Table, show: ShowSlug)
    ensures |Records(t, show)| == |Ordered(t, show)|
  {
  }

  method CachedRecords(records: seq<EpisodeRecord>, ghost t: Table, show: ShowSlug) returns (cached: seq<EpisodeRecord>)
    requires records == Records(t, show)
    ensures RecordIds(cached) == CachedInOrder(t, show)
    ensures AreRows(cached, t, show)
  {
    ghost var ids, s := Ordered(t, show), CachedIds(t, show);
    cached := [];
    for i := 0 to |records|
      invariant RecordIds(cached) == Only(ids[..i], s)
      invariant AreRows(cached, t, show)
    {
      RecordAt(t, show, i);
      OnlyStep(ids, s, i);
      if records[i].record.state.Cached? {
        AreRowsStep(cached, t, show, records[i]);
        cached := cached + [records[i]];
      }
    }
    RecordsLength(t, show);
    assert ids[..|ids|] == ids;
  }

  lemma CachedInOrderIsDistinct(t: Table, show: ShowSlug)
    ensures Distinct(CachedInOrder(t, show))
  {
    OrderedRows(t, show);
    OnlyMembers(Ordered(t, show), CachedIds(t, show));
  }

  lemma VerifySnapshot(
    hash: Bytes -> Hash, w: World, show: ShowSlug, ids: seq<EpisodeId>, i: nat, fix: bool, up: Upstream)
    requires i < |ids| && Distinct(ids) && Key(show, ids[i]) in w.table
    ensures var key, t := Key(show, ids[i]), Verified(hash, w, show, ids[..i], fix, up).table;
            key in t && t[key] == w.table[key]
  {
    assert ids[i] in ids && ids[i] !in ids[..i];
    VerifyLeavesRow(hash, w, show, ids[..i], fix, up, Key(show, ids[i]));
  }

  lemma VerifyStep(
    hash: Bytes -> Hash, w: World, show: ShowSlug, ids: seq<EpisodeId>, i: nat, fix: bool, up: Upstream)
    requires i < |ids|
    ensures var key, before := Key(show, ids[i]), Verified(hash, w, show, ids[..i], fix, up);
            var outcome := OutcomeOf(hash, before, key, fix, up);
            && Verified(hash, w, show, ids[..i + 1], fix, up) == VerifyOne(hash, before, key, fix, up)
            && Problems(hash, w, show, ids[..i + 1], fix, up)
               == Problems(hash, w, show, ids[..i], fix, up) + if outcome.Some? then [outcome.value] else []
  {
    assert ids[..i + 1][..i] == ids[..i];
  }

  /** Verifying some episodes leaves the rows of all others alone. */
  lemma {:induction false} VerifyLeavesRow(
    hash: Bytes -> Hash, w: World, show: ShowSlug, ids: seq<EpisodeId>, fix: bool, up: Upstream, key: Key)
    requires key in w.table && (key.show == show ==> key.id !in ids)
    ensures var t := Verified(hash, w, show, ids, fix, up).table; key in t && t[key] == w.table[key]
  {
    if ids != [] {
      var n := |ids| - 1;
      assert ids == ids[..n] + [ids[n]];
      assert ids[n] in ids;
      VerifyLeavesRow(hash, w, show, ids[..n], fix, up, key);
    }
  }
}
