/** A sync, step by step and as a whole, reads and writes its own show's part of the world only. */
module Boundaries {
  import opened Wrappers
  import opened Domain
  import Timestamps
  import opened Retention
  import opened Episodes
  import Media
  import opened Download
  import opened World
  import opened Rows
  import opened Agreement
  import opened Shows
  import opened Syncing
  import Transfers

  /** The syncs of all shows. */
  ghost function Syncs(hash: Bytes -> Hash, jobs: ShowSlug -> Job): Program<Stage, Event> {
    (show: ShowSlug, p: Stage, w: World, e: Event) => SyncStep(hash, jobs(show), show, p, w, e)
  }

  /** Nothing needs to hold of where a sync stands. */
  function AnyStage(): Fitness<Stage> {
    (show: ShowSlug, p: Stage) => true
  }

  // ----- a sync keeps to its show -----

  lemma OrderedInside(t: Table, t': Table, show: ShowSlug)
    requires SameRows(t, t', show)
    ensures Ordered(t, show) == Ordered(t', show)
  {
    forall id: EpisodeId ensures Key(show, id) in t <==> Key(show, id) in t' {}
    assert StampsOf(t, show) == StampsOf(t', show);
  }

  lemma CandidatesInside(t: Table, t': Table, show: ShowSlug, ids: seq<EpisodeId>)
    requires SameRows(t, t', show)
    ensures Candidates(t, show, ids) == Candidates(t', show, ids)
  {
  }

  lemma PendingInside(t: Table, t': Table, show: ShowSlug, policy: Policy, window: seq<EpisodeId>)
    requires SameRows(t, t', show)
    ensures Pending(t, show, policy, window) == Pending(t', show, policy, window)
  {
    CandidatesInside(t, t', show, window);
    forall id: EpisodeId ensures IsPending(t, Key(show, id)) <==> IsPending(t', Key(show, id)) {}
    assert PendingIds(t, show, window) == PendingIds(t', show, window);
  }

  lemma CachedInside(t: Table, t': Table, show: ShowSlug)
    requires SameRows(t, t', show)
    ensures CachedInOrder(t, show) == CachedInOrder(t', show)
  {
    OrderedInside(t, t', show);
    forall id: EpisodeId ensures IsCached(t, Key(show, id)) <==> IsCached(t', Key(show, id)) {}
    assert CachedIds(t, show) == CachedIds(t', show);
  }

  lemma PlanInside(t: Table, t': Table, show: ShowSlug, policy: Policy)
    requires SameRows(t, t', show)
    ensures PrunePlan(t, show, policy) == PrunePlan(t', show, policy)
  {
    CachedInside(t, t', show);
    CandidatesInside(t, t', show, CachedInOrder(t, show));
  }

  lemma {:induction false} DiscoverInside(t: Table, t': Table, show: ShowSlug, listing: seq<EpisodeMeta>, now: Timestamps.Timestamp)
    requires SameRows(t, t', show)
    ensures SameRows(Discover(t, show, listing, now), Discover(t', show, listing, now), show)
  {
    if listing != [] { DiscoverInside(t, t', show, listing[..|listing| - 1], now); }
  }

  /** The step leaves paths in their places and other shows alone. */
  ghost predicate Stays(w: World, w': World, show: ShowSlug) {
    (Tidy(w.table) ==> Tidy(w'.table)) && OnlyPart(w, w', show)
  }

  lemma NothingMoves(w: World, show: ShowSlug)
    ensures Stays(w, w, show)
  {
  }

  lemma DiscoverOneStays(t: Table, show: ShowSlug, m: EpisodeMeta, now: Timestamps.Timestamp)
    requires Tidy(t)
    ensures Tidy(DiscoverOne(t, show, m, now))
    ensures forall other :: other != show ==> SameRows(t, DiscoverOne(t, show, m, now), other)
  {
    forall key: Key ensures RowPlaced(DiscoverOne(t, show, m, now), key) { assert RowPlaced(t, key); }
  }

  lemma {:induction false} DiscoverStays(t: Table, show: ShowSlug, listing: seq<EpisodeMeta>, now: Timestamps.Timestamp)
    requires Tidy(t)
    ensures Tidy(Discover(t, show, listing, now))
    ensures forall other :: other != show ==> SameRows(t, Discover(t, show, listing, now), other)
  {
    if listing != [] {
      var n := |listing| - 1;
      var before := Discover(t, show, listing[..n], now);
      DiscoverStays(t, show, listing[..n], now);
      DiscoverOneStays(before, show, listing[n], now);
      forall other | other != show ensures SameRows(t, Discover(t, show, listing, now), other) {
        assert SameRows(t, before, other) && SameRows(before, DiscoverOne(before, show, listing[n], now), other);
      }
    }
  }

  lemma HealStays(job: Job, show: ShowSlug, w: World)
    requires Tidy(w.table)
    ensures Stays(w, HealStep(job, show, w).1, show)
  {
    forall key: Key ensures RowPlaced(ResetStale(w.table, show, job.up.cutoff), key) { assert RowPlaced(w.table, key); }
  }

  lemma NoteStays(job: Job, show: ShowSlug, w: World)
    requires Tidy(w.table)
    ensures Stays(w, NoteStep(job, show, w).1, show)
  {
    if ListsShow(job.up) && job.up.listing.value.Modified? {
      DiscoverStays(w.table, show, job.up.listing.value.episodes, job.up.now);
    }
  }

  lemma OwnRowPlaced(
    s: Transfers.Busy, e: Transfers.Event, got: Result<Got, ErrorClass>, key: Key, finished: Timestamps.Timestamp)
    requires e.i < |s.phases| && RowPlaced(s.world.table, key)
    requires got.Success? ==> Media.Owns(key, got.value.file.filePath)
    ensures RowPlaced(Transfers.NextWorld(s, e, got, key, finished).table, key)
  {
    match e
    case Start(_) =>
    case Rename(_) =>
    case Finish(_) =>
    case Report(_, _, _, _) =>
  }

  /** A download writes its own row... */
  lemma TickRowsStay(
    hash: Bytes -> Hash, up: Upstream, show: ShowSlug, ids: seq<EpisodeId>, phases: seq<Transfers.Phase>, w: World,
    e: Transfers.Event, other: Key)
    requires |phases| == |ids| && RowPlaced(w.table, other)
    ensures var t := TickStep(hash, up, show, ids, phases, w, e).world.table;
            && RowPlaced(t, other)
            && (other.show != show ==> (other in t <==> other in w.table) && (other in t ==> t[other] == w.table[other]))
  {
    if e.i < |ids| {
      var key, s := Key(show, ids[e.i]), Transfers.Busy(w, phases);
      var got := Fetched(hash, key, up);
      if got.Success? { FetchedFile(hash, key, up); }
      if other == key { OwnRowPlaced(s, e, got, key, up.finished(key.id)); }
      else { Transfers.StepTouchesOne(s, e, got, key, up.finished(key.id), other); }
    }
  }

  /** ... and a file in its own place. */
  lemma TickFilesStay(
    hash: Bytes -> Hash, up: Upstream, show: ShowSlug, ids: seq<EpisodeId>, phases: seq<Transfers.Phase>, w: World,
    e: Transfers.Event, p: Path)
    requires |phases| == |ids| && !InShow(p, show)
    ensures SameAt(w.files, TickStep(hash, up, show, ids, phases, w, e).world.files, p)
  {
    var b, s := Transfers.Batch(hash, w, show, ids, up), Transfers.Busy(w, phases);
    Transfers.FilesStep(b, s, e, p);
    if Transfers.RenamesTo(b, s, e, p) {
      FetchedFile(hash, Key(show, ids[e.i]), up);
      OwnPath(Key(show, ids[e.i]), p);
    }
  }

  lemma TickStays(
    hash: Bytes -> Hash, up: Upstream, show: ShowSlug, ids: seq<EpisodeId>, phases: seq<Transfers.Phase>, w: World,
    e: Transfers.Event)
    requires |phases| == |ids| && Tidy(w.table)
    ensures Stays(w, TickStep(hash, up, show, ids, phases, w, e).world, show)
  {
    var w' := TickStep(hash, up, show, ids, phases, w, e).world;
    forall key: Key
      ensures RowPlaced(w'.table, key)
      ensures key.show != show ==> (key in w.table <==> key in w'.table) && (key in w.table ==> w.table[key] == w'.table[key])
    {
      TickRowsStay(hash, up, show, ids, phases, w, e, key);
    }
    forall p: Path | !InShow(p, show) ensures SameAt(w.files, w'.files, p) {
      TickFilesStay(hash, up, show, ids, phases, w, e, p);
    }
  }

  lemma DeleteStays(up: Upstream, show: ShowSlug, plan: seq<EpisodeId>, k: nat, w: World)
    requires k < |plan| && Tidy(w.table)
    ensures Stays(w, DeleteStep(up, show, plan, k, w).1, show)
  {
    var key := Key(show, plan[k]);
    assert RowPlaced(w.table, key);
    if key in w.table && w.table[key].data.filePath.Some? { OwnPath(key, w.table[key].data.filePath.value); }
  }

  lemma MarkStays(show: ShowSlug, plan: seq<EpisodeId>, k: nat, w: World)
    requires k < |plan| && Tidy(w.table)
    ensures Stays(w, MarkStep(show, plan, k, w).1, show)
  {
    var t := MarkPruned(w.table, Key(show, plan[k]));
    forall other: Key ensures RowPlaced(t, other) { assert RowPlaced(w.table, other); }
  }

  lemma StepStays(hash: Bytes -> Hash, job: Job, show: ShowSlug, p: Stage, w: World, e: Event)
    requires Tidy(w.table)
    ensures Stays(w, SyncStep(hash, job, show, p, w, e).1, show)
  {
    NothingMoves(w, show);
    match e
    case Heal => HealStays(job, show, w);
    case Note => NoteStays(job, show, w);
    case Tick(x) => if p.Loading? && |p.phases| == |p.ids| { TickStays(hash, job.up, show, p.ids, p.phases, w, x); }
    case Delete => if p.Pruning? && p.k < |p.plan| { DeleteStays(job.up, show, p.plan, p.k, w); }
    case Mark => if p.Pruning? && p.k < |p.plan| { MarkStays(show, p.plan, p.k, w); }
    case Plan | Choose | Finish =>
  }

  // ----- ... and sees only its show -----

  /** Both outcomes are the same to work for `show`. */
  ghost predicate Alike(x: (Stage, World), y: (Stage, World), show: ShowSlug) {
    x.0 == y.0 && SamePart(x.1, y.1, show)
  }

  lemma HealInside(job: Job, show: ShowSlug, w: World, w': World)
    requires SamePart(w, w', show)
    ensures SamePart(HealStep(job, show, w).1, HealStep(job, show, w').1, show)
  {
  }

  lemma NoteSees(job: Job, show: ShowSlug, w: World, w': World)
    requires SamePart(w, w', show)
    ensures Alike(NoteStep(job, show, w), NoteStep(job, show, w'), show)
  {
    if ListsShow(job.up) && job.up.listing.value.Modified? {
      DiscoverInside(w.table, w'.table, show, job.up.listing.value.episodes, job.up.now);
    }
  }

  lemma PlanSees(job: Job, show: ShowSlug, w: World, w': World)
    requires SamePart(w, w', show) && job.up.listing.Success?
    ensures Alike(PlanStep(job, show, w), PlanStep(job, show, w'), show)
  {
    OrderedInside(w.table, w'.table, show);
    PendingInside(w.table, w'.table, show, job.policy, WindowNow(w.table, show, job));
  }

  lemma OwnRowSees(
    s: Transfers.Busy, s': Transfers.Busy, e: Transfers.Event, got: Result<Got, ErrorClass>, key: Key,
    finished: Timestamps.Timestamp)
    requires e.i < |s.phases| && s'.phases == s.phases
    requires (key in s.world.table <==> key in s'.world.table)
    requires key in s.world.table ==> s.world.table[key] == s'.world.table[key]
    ensures Transfers.NextPhase(s, e, got, key) == Transfers.NextPhase(s', e, got, key)
    ensures var t, t' := Transfers.NextWorld(s, e, got, key, finished).table, Transfers.NextWorld(s', e, got, key, finished).table;
            (key in t <==> key in t') && (key in t ==> t[key] == t'[key])
  {
    match e
    case Start(_) =>
    case Rename(_) =>
    case Finish(_) =>
    case Report(_, _, _, _) =>
  }

  lemma TickRowSees(
    hash: Bytes -> Hash, up: Upstream, show: ShowSlug, ids: seq<EpisodeId>, phases: seq<Transfers.Phase>,
    w: World, w': World, e: Transfers.Event, k: Key)
    requires |phases| == |ids| && SameRows(w.table, w'.table, show) && k.show == show
    ensures var s, s' := TickStep(hash, up, show, ids, phases, w, e), TickStep(hash, up, show, ids, phases, w', e);
            && s.phases == s'.phases
            && (k in s.world.table <==> k in s'.world.table) && (k in s.world.table ==> s.world.table[k] == s'.world.table[k])
  {
    assert k in w.table <==> k in w'.table;
    if e.i < |ids| {
      var key, s, s' := Key(show, ids[e.i]), Transfers.Busy(w, phases), Transfers.Busy(w', phases);
      var got := Fetched(hash, key, up);
      assert key in w.table <==> key in w'.table;
      OwnRowSees(s, s', e, got, key, up.finished(key.id));
      if k != key {
        Transfers.StepTouchesOne(s, e, got, key, up.finished(key.id), k);
        Transfers.StepTouchesOne(s', e, got, key, up.finished(key.id), k);
      }
    }
  }

  lemma TickFileSees(
    hash: Bytes -> Hash, up: Upstream, show: ShowSlug, ids: seq<EpisodeId>, phases: seq<Transfers.Phase>,
    w: World, w': World, e: Transfers.Event, p: Path)
    requires |phases| == |ids| && SameAt(w.files, w'.files, p)
    ensures SameAt(TickStep(hash, up, show, ids, phases, w, e).world.files, TickStep(hash, up, show, ids, phases, w', e).world.files, p)
  {
    Transfers.FilesStep(Transfers.Batch(hash, w, show, ids, up), Transfers.Busy(w, phases), e, p);
    Transfers.FilesStep(Transfers.Batch(hash, w', show, ids, up), Transfers.Busy(w', phases), e, p);
  }

  lemma TickSees(
    hash: Bytes -> Hash, up: Upstream, show: ShowSlug, ids: seq<EpisodeId>, phases: seq<Transfers.Phase>,
    w: World, w': World, e: Transfers.Event)
    requires |phases| == |ids| && SamePart(w, w', show)
    ensures var s, s' := TickStep(hash, up, show, ids, phases, w, e), TickStep(hash, up, show, ids, phases, w', e);
            s.phases == s'.phases && SamePart(s.world, s'.world, show)
  {
    var s, s' := TickStep(hash, up, show, ids, phases, w, e), TickStep(hash, up, show, ids, phases, w', e);
    forall k: Key | k.show == show
      ensures s.phases == s'.phases
      ensures (k in s.world.table <==> k in s'.world.table) && (k in s.world.table ==> s.world.table[k] == s'.world.table[k])
    {
      TickRowSees(hash, up, show, ids, phases, w, w', e, k);
    }
    assert Key(show, "1").show == show;
    forall p: Path | InShow(p, show) ensures SameAt(s.world.files, s'.world.files, p) {
      assert SameAt(w.files, w'.files, p);
      TickFileSees(hash, up, show, ids, phases, w, w', e, p);
    }
  }

  lemma DeleteSees(up: Upstream, show: ShowSlug, plan: seq<EpisodeId>, k: nat, w: World, w': World)
    requires k < |plan| && SamePart(w, w', show)
    ensures Alike(DeleteStep(up, show, plan, k, w), DeleteStep(up, show, plan, k, w'), show)
  {
    var key := Key(show, plan[k]);
    assert key in w.table <==> key in w'.table;
    var f, f' := DeleteStep(up, show, plan, k, w).1.files, DeleteStep(up, show, plan, k, w').1.files;
    forall p: Path | InShow(p, show) ensures SameAt(f, f', p) { assert SameAt(w.files, w'.files, p); }
  }

  lemma MarkSees(show: ShowSlug, plan: seq<EpisodeId>, k: nat, w: World, w': World)
    requires k < |plan| && SamePart(w, w', show)
    ensures Alike(MarkStep(show, plan, k, w), MarkStep(show, plan, k, w'), show)
  {
    assert Key(show, plan[k]) in w.table <==> Key(show, plan[k]) in w'.table;
  }

  lemma NothingSeen(p: Stage, w: World, w': World, show: ShowSlug)
    requires SamePart(w, w', show)
    ensures Alike((p, w), (p, w'), show)
  {
  }

  lemma TickAlike(
    hash: Bytes -> Hash, job: Job, show: ShowSlug, ids: seq<EpisodeId>, phases: seq<Transfers.Phase>, w: World, w': World,
    e: Transfers.Event)
    requires SamePart(w, w', show)
    ensures Alike(SyncStep(hash, job, show, Loading(ids, phases), w, Tick(e)),
                  SyncStep(hash, job, show, Loading(ids, phases), w', Tick(e)), show)
  {
    if |phases| == |ids| { TickSees(hash, job.up, show, ids, phases, w, w', e); }
  }

  lemma StepSees(hash: Bytes -> Hash, job: Job, show: ShowSlug, p: Stage, w: World, w': World, e: Event)
    requires SamePart(w, w', show)
    ensures Alike(SyncStep(hash, job, show, p, w, e), SyncStep(hash, job, show, p, w', e), show)
  {
    NothingSeen(p, w, w', show);
    match e
    case Heal => HealInside(job, show, w, w');
    case Note => NoteSees(job, show, w, w');
    case Plan => if job.up.listing.Success? { PlanSees(job, show, w, w'); }
    case Tick(x) => if p.Loading? { TickAlike(hash, job, show, p.ids, p.phases, w, w', x); }
    case Choose => PlanInside(w.table, w'.table, show, job.policy);
    case Delete => if p.Pruning? && p.k < |p.plan| { DeleteSees(job.up, show, p.plan, p.k, w, w'); }
    case Mark => if p.Pruning? && p.k < |p.plan| { MarkSees(show, p.plan, p.k, w, w'); }
    case Finish =>
  }

  /** Every step of a sync reads and writes the rows and files of its own show only. */
  lemma SyncsAreLocal(hash: Bytes -> Hash, jobs: ShowSlug -> Job)
    ensures Local(Syncs(hash, jobs), AnyStage())
  {
    var step := Syncs(hash, jobs);
    forall show: ShowSlug, p: Stage, w: World, e: Event ensures StaysInside(step, AnyStage(), show, p, w, e) {
      if Tidy(w.table) { StepStays(hash, jobs(show), show, p, w, e); }
    }
    forall show: ShowSlug, p: Stage, w: World, w': World, e: Event ensures SeesInside(step, AnyStage(), show, p, w, w', e) {
      if SamePart(w, w', show) { StepSees(hash, jobs(show), show, p, w, w', e); }
    }
  }

  // ----- a whole sync keeps to its show -----

  lemma DownloadOneOther(hash: Bytes -> Hash, w: World, key: Key, up: Upstream, k: Key)
    requires k != key
    ensures var t := DownloadOne(hash, w, key, up).table; (k in t <==> k in w.table) && (k in t ==> t[k] == w.table[k])
  {
    if Allowed(w.table, key, Downloading) { DownloadOneRow(hash, w, key, up); }
  }

  lemma DownloadOneOwn(hash: Bytes -> Hash, w: World, key: Key, up: Upstream)
    ensures var t := DownloadOne(hash, w, key, up).table;
            && (key in t <==> key in w.table)
            && (key in t ==> t[key] == if CanTransition(w.table[key].state, Downloading) then RowAfter(hash, w.table[key], key, up)
                                       else MarkFailed(w.table, key, Disk)[key])
  {
    if Allowed(w.table, key, Downloading) { DownloadOneRow(hash, w, key, up); }
  }

  lemma DownloadOneFile(hash: Bytes -> Hash, w: World, key: Key, up: Upstream, p: Path)
    ensures var files := DownloadOne(hash, w, key, up).files;
            if Allowed(w.table, key, Downloading) && Delivers(hash, key, up, p)
            then p in files && files[p] == Fetched(hash, key, up).value.body else SameAt(w.files, files, p)
  {
    if Allowed(w.table, key, Downloading) { DownloadOneRow(hash, w, key, up); }
  }

  lemma DownloadOneInside(hash: Bytes -> Hash, w: World, w': World, key: Key, up: Upstream)
    requires SamePart(w, w', key.show)
    ensures SamePart(DownloadOne(hash, w, key, up), DownloadOne(hash, w', key, up), key.show)
  {
    var x, y := DownloadOne(hash, w, key, up), DownloadOne(hash, w', key, up);
    assert key in w.table <==> key in w'.table;
    forall k: Key | k.show == key.show
      ensures (k in x.table <==> k in y.table) && (k in x.table ==> x.table[k] == y.table[k])
    {
      assert k in w.table <==> k in w'.table;
      if k == key {
        DownloadOneOwn(hash, w, key, up);
        DownloadOneOwn(hash, w', key, up);
      } else {
        DownloadOneOther(hash, w, key, up, k);
        DownloadOneOther(hash, w', key, up, k);
      }
    }
    forall p: Path | InShow(p, key.show) ensures SameAt(x.files, y.files, p) {
      assert SameAt(w.files, w'.files, p);
      DownloadOneFile(hash, w, key, up, p);
      DownloadOneFile(hash, w', key, up, p);
    }
  }

  lemma DownloadOnePlaced(hash: Bytes -> Hash, w: World, key: Key, up: Upstream)
    requires RowPlaced(w.table, key)
    ensures RowPlaced(DownloadOne(hash, w, key, up).table, key)
  {
    DownloadOneOwn(hash, w, key, up);
    if Fetched(hash, key, up).Success? { FetchedFile(hash, key, up); }
  }

  lemma DownloadOneStays(hash: Bytes -> Hash, w: World, key: Key, up: Upstream)
    requires Tidy(w.table)
    ensures Stays(w, DownloadOne(hash, w, key, up), key.show)
  {
    var w' := DownloadOne(hash, w, key, up);
    forall k: Key
      ensures RowPlaced(w'.table, k)
      ensures k != key ==> (k in w.table <==> k in w'.table) && (k in w.table ==> w.table[k] == w'.table[k])
    {
      assert RowPlaced(w.table, k);
      if k == key { DownloadOnePlaced(hash, w, key, up); } else { DownloadOneOther(hash, w, key, up, k); }
    }
    forall p: Path | !InShow(p, key.show) ensures SameAt(w.files, w'.files, p) {
      DownloadOneFile(hash, w, key, up, p);
      if Delivers(hash, key, up, p) {
        FetchedFile(hash, key, up);
        OwnPath(key, p);
      }
    }
  }

  lemma StaysOn(w: World, w': World, w'': World, show: ShowSlug)
    requires Stays(w, w', show) && Stays(w', w'', show)
    ensures Stays(w, w'', show)
  {
    forall other | other != show ensures SameRows(w.table, w''.table, other) {
      assert SameRows(w.table, w'.table, other) && SameRows(w'.table, w''.table, other);
    }
    forall p: Path | !InShow(p, show) ensures SameAt(w.files, w''.files, p) {
      assert SameAt(w.files, w'.files, p) && SameAt(w'.files, w''.files, p);
    }
  }

  lemma {:induction false} DownloadsInside(hash: Bytes -> Hash, w: World, w': World, show: ShowSlug, ids: seq<EpisodeId>, up: Upstream)
    requires SamePart(w, w', show) && Tidy(w.table)
    ensures SamePart(Downloads(hash, w, show, ids, up), Downloads(hash, w', show, ids, up), show)
    ensures Stays(w, Downloads(hash, w, show, ids, up), show)
  {
    if ids == [] {
      NothingMoves(w, show);
    } else {
      var n := |ids| - 1;
      var x, y := Downloads(hash, w, show, ids[..n], up), Downloads(hash, w', show, ids[..n], up);
      DownloadsInside(hash, w, w', show, ids[..n], up);
      DownloadOneInside(hash, x, y, Key(show, ids[n]), up);
      DownloadOneStays(hash, x, Key(show, ids[n]), up);
      StaysOn(w, x, DownloadOne(hash, x, Key(show, ids[n]), up), show);
    }
  }

  lemma PruneOneInside(w: World, w': World, key: Key, up: Upstream)
    requires SamePart(w, w', key.show)
    ensures SamePart(PruneOne(w, key, up), PruneOne(w', key, up), key.show)
  {
    assert key in w.table <==> key in w'.table;
    var f, f' := PruneOne(w, key, up).files, PruneOne(w', key, up).files;
    forall p: Path | InShow(p, key.show) ensures SameAt(f, f', p) { assert SameAt(w.files, w'.files, p); }
  }

  lemma PruneOneStays(w: World, key: Key, up: Upstream)
    requires Tidy(w.table)
    ensures Stays(w, PruneOne(w, key, up), key.show)
  {
    var w' := PruneOne(w, key, up);
    assert RowPlaced(w.table, key);
    if key in w.table && w.table[key].data.filePath.Some? { OwnPath(key, w.table[key].data.filePath.value); }
    forall k: Key ensures RowPlaced(w'.table, k) { assert RowPlaced(w.table, k); }
  }

  lemma {:induction false} PruneInside(w: World, w': World, show: ShowSlug, ids: seq<EpisodeId>, up: Upstream)
    requires SamePart(w, w', show) && Tidy(w.table)
    ensures SamePart(Prune(w, show, ids, up), Prune(w', show, ids, up), show)
    ensures Stays(w, Prune(w, show, ids, up), show)
  {
    if ids == [] {
      NothingMoves(w, show);
    } else {
      var n := |ids| - 1;
      var x, y := Prune(w, show, ids[..n], up), Prune(w', show, ids[..n], up);
      PruneInside(w, w', show, ids[..n], up);
      PruneOneInside(x, y, Key(show, ids[n]), up);
      PruneOneStays(x, Key(show, ids[n]), up);
      StaysOn(w, x, PruneOne(x, Key(show, ids[n]), up), show);
    }
  }

  lemma SettleInside(
    hash: Bytes -> Hash, w: World, w': World, show: ShowSlug, policy: Policy, window: seq<EpisodeId>, up: Upstream)
    requires SamePart(w, w', show) && Tidy(w.table)
    ensures SamePart(Settle(hash, w, show, policy, window, up), Settle(hash, w', show, policy, window, up), show)
    ensures Stays(w, Settle(hash, w, show, policy, window, up), show)
  {
    var ids := Pending(w.table, show, policy, window);
    var x, y := Downloads(hash, w, show, ids, up), Downloads(hash, w', show, ids, up);
    PendingInside(w.table, w'.table, show, policy, window);
    DownloadsInside(hash, w, w', show, ids, up);
    PlanInside(x.table, y.table, show, policy);
    PruneInside(x, y, show, PrunePlan(x.table, show, policy), up);
    StaysOn(w, x, Prune(x, show, PrunePlan(x.table, show, policy), up), show);
  }

  lemma ListedInside(job: Job, show: ShowSlug, w: World, w': World)
    requires SamePart(w, w', show) && Tidy(w.table)
    ensures SamePart(AfterListing(job, show, w), AfterListing(job, show, w'), show)
    ensures Stays(w, AfterListing(job, show, w), show)
  {
    var x, y := HealStep(job, show, w).1, HealStep(job, show, w').1;
    HealStays(job, show, w);
    HealInside(job, show, w, w');
    NoteStays(job, show, x);
    NoteSees(job, show, x, y);
    assert AfterListing(job, show, w) == NoteStep(job, show, x).1 && AfterListing(job, show, w') == NoteStep(job, show, y).1;
    StaysOn(w, x, AfterListing(job, show, w), show);
  }

  lemma SyncedInside(hash: Bytes -> Hash, job: Job, show: ShowSlug, w: World, w': World)
    requires SamePart(w, w', show) && Tidy(w.table)
    ensures SamePart(Synced(hash, w, show, job.policy, job.limit, job.up), Synced(hash, w', show, job.policy, job.limit, job.up), show)
    ensures Stays(w, Synced(hash, w, show, job.policy, job.limit, job.up), show)
  {
    var x, y := AfterListing(job, show, w), AfterListing(job, show, w');
    ListedInside(job, show, w, w');
    if ListsShow(job.up) {
      OrderedInside(x.table, y.table, show);
      var window := Window(w.table, show, job.limit, job.up);
      assert window == Window(w'.table, show, job.limit, job.up);
      SettleInside(hash, x, y, show, job.policy, window, job.up);
      StaysOn(w, x, Settle(hash, x, show, job.policy, window, job.up), show);
    }
  }
}
