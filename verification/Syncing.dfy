/** One sync as a series of atomic steps, its downloads concurrent, and what the steps come to. */
module Syncing {
  import opened Wrappers
  import opened Domain
  import opened Retention
  import opened Episodes
  import opened Download
  import opened World
  import opened Rows
  import opened Agreement
  import opened Media
  import Transfers

  /** What one sync is asked to do, and everything the outside world answers it. */
  datatype Job = Job(policy: Policy, limit: Option<nat>, up: Upstream)

  /** Where a sync stands: not begun, leftovers healed, listing recorded, downloading, pruning the
      rest of its plan (with the file of `plan[k]` already deleted if `cut`), or over. */
  datatype Stage =
    | Waiting
    | Healed
    | Recorded
    | Loading(ids: seq<EpisodeId>, phases: seq<Transfers.Phase>)
    | Pruning(plan: seq<EpisodeId>, k: nat, cut: bool)
    | Over

  /** The atomic steps of a sync: single storage calls, single file operations, and the decisions in
      between, which only read. */
  datatype Event =
    | Heal
    | Note
    | Plan
    | Tick(e: Transfers.Event)
    | Choose
    | Delete
    | Mark
    | Finish

  /** The window as read after the listing was recorded. */
  ghost function WindowNow(t: Table, show: ShowSlug, job: Job): seq<EpisodeId>
    requires job.up.listing.Success?
  {
    if job.up.listing.value.Modified? then ListedIds(job.up.listing.value.episodes) else Bounded(Ordered(t, show), job.limit)
  }

  function Queue(n: nat): (phases: seq<Transfers.Phase>)
    ensures |phases| == n
  {
    seq(n, _ => Transfers.Queued)
  }

  ghost predicate AllOver(phases: seq<Transfers.Phase>) {
    forall i :: 0 <= i < |phases| ==> phases[i].Settled?
  }

  /** Leftovers are healed. */
  function HealStep(job: Job, show: ShowSlug, w: World): (Stage, World) {
    (Healed, World(ResetStale(w.table, show, job.up.cutoff), w.files))
  }

  /** The listing is recorded; a show that cannot be listed ends the sync. */
  function NoteStep(job: Job, show: ShowSlug, w: World): (Stage, World) {
    if !ListsShow(job.up) then (Over, w)
    else if !job.up.listing.value.Modified? then (Recorded, w)
    else (Recorded, World(Discover(w.table, show, job.up.listing.value.episodes, job.up.now), w.files))
  }

  /** The downloads are chosen. */
  ghost function PlanStep(job: Job, show: ShowSlug, w: World): (Stage, World)
    requires job.up.listing.Success?
  {
    var ids := Pending(w.table, show, job.policy, WindowNow(w.table, show, job));
    (Loading(ids, Queue(|ids|)), w)
  }

  /** One step of one download of the batch. */
  function TickStep(
    hash: Bytes -> Hash, up: Upstream, show: ShowSlug, ids: seq<EpisodeId>, phases: seq<Transfers.Phase>, w: World,
    e: Transfers.Event): Transfers.Busy
    requires |phases| == |ids|
  {
    Transfers.Step(Transfers.Batch(hash, w, show, ids, up), Transfers.Busy(w, phases), e)
  }

  /** The deletion of one planned row's file, unless the row is gone or its file is refused. */
  function DeleteStep(up: Upstream, show: ShowSlug, plan: seq<EpisodeId>, k: nat, w: World): (Stage, World)
    requires k < |plan|
  {
    var key := Key(show, plan[k]);
    if key !in w.table || Skipped(w.table, key, up) then (Pruning(plan, k + 1, false), w)
    else
      var p := w.table[key].data.filePath;
      (Pruning(plan, k, true), World(w.table, if p.Some? then w.files - {p.value} else w.files))
  }

  function MarkStep(show: ShowSlug, plan: seq<EpisodeId>, k: nat, w: World): (Stage, World)
    requires k < |plan|
  {
    (Pruning(plan, k + 1, false), World(MarkPruned(w.table, Key(show, plan[k])), w.files))
  }

  /** A step that is not the sync's turn does nothing. */
  ghost function SyncStep(hash: Bytes -> Hash, job: Job, show: ShowSlug, p: Stage, w: World, e: Event): (Stage, World) {
    match e
    case Heal => if p.Waiting? then HealStep(job, show, w) else (p, w)
    case Note => if p.Healed? then NoteStep(job, show, w) else (p, w)
    case Plan => if p.Recorded? && job.up.listing.Success? then PlanStep(job, show, w) else (p, w)
    case Tick(x) =>
      if p.Loading? && |p.phases| == |p.ids| then
        var s := TickStep(hash, job.up, show, p.ids, p.phases, w, x);
        (Loading(p.ids, s.phases), s.world)
      else (p, w)
    case Choose =>
      if p.Loading? && AllOver(p.phases) then (Pruning(PrunePlan(w.table, show, job.policy), 0, false), w) else (p, w)
    case Delete => if p.Pruning? && !p.cut && p.k < |p.plan| then DeleteStep(job.up, show, p.plan, p.k, w) else (p, w)
    case Mark => if p.Pruning? && p.cut && p.k < |p.plan| then MarkStep(show, p.plan, p.k, w) else (p, w)
    case Finish => if p.Pruning? && !p.cut && p.k >= |p.plan| then (Over, w) else (p, w)
  }

  // ----- what the steps come to -----

  /** The world once leftovers are healed and the listing is recorded. */
  function AfterListing(job: Job, show: ShowSlug, w0: World): World {
    World(Listed(w0.table, show, job.up), w0.files)
  }

  /** The downloads of the sync. */
  ghost function BatchOf(hash: Bytes -> Hash, job: Job, show: ShowSlug, w0: World): Transfers.Batch
    requires job.up.listing.Success?
  {
    var listed := AfterListing(job, show, w0);
    Transfers.Batch(hash, listed, show,
                    Pending(listed.table, show, job.policy, Window(w0.table, show, job.limit, job.up)), job.up)
  }

  /** The world once the downloads are over. */
  ghost function AfterDownloads(hash: Bytes -> Hash, job: Job, show: ShowSlug, w0: World): World
    requires job.up.listing.Success?
  {
    var b := BatchOf(hash, job, show, w0);
    Downloads(hash, b.start, show, b.ids, job.up)
  }

  ghost predicate Reached(b: Transfers.Batch, s: Transfers.Busy) {
    exists own :: Transfers.Run(b, own) == s
  }

  /** Pruning has done `plan[..k]`, and the deletion of the next one's file if `cut`. */
  ghost predicate PrunedSoFar(job: Job, show: ShowSlug, w1: World, plan: seq<EpisodeId>, k: nat, cut: bool, w: World)
    requires k <= |plan|
  {
    var before := Prune(w1, show, plan[..k], job.up);
    if cut then
      && k < |plan| && Key(show, plan[k]) in before.table && !Skipped(before.table, Key(show, plan[k]), job.up)
      && w == DeleteStep(job.up, show, plan, k, before).1
    else w == before
  }

  ghost predicate LoadingStands(
    hash: Bytes -> Hash, job: Job, show: ShowSlug, w0: World, ids: seq<EpisodeId>, phases: seq<Transfers.Phase>, w: World)
  {
    && ListsShow(job.up) && ids == BatchOf(hash, job, show, w0).ids
    && Reached(BatchOf(hash, job, show, w0), Transfers.Busy(w, phases))
  }

  ghost predicate PruningStands(
    hash: Bytes -> Hash, job: Job, show: ShowSlug, w0: World, plan: seq<EpisodeId>, k: nat, cut: bool, w: World)
  {
    && ListsShow(job.up) && k <= |plan|
    && plan == PrunePlan(AfterDownloads(hash, job, show, w0).table, show, job.policy)
    && PrunedSoFar(job, show, AfterDownloads(hash, job, show, w0), plan, k, cut, w)
  }

  /** Where a sync that found `w0` and is at `p` has brought the world. */
  ghost predicate Standing(hash: Bytes -> Hash, job: Job, show: ShowSlug, w0: World, p: Stage, w: World) {
    match p
    case Waiting => w == w0
    case Healed => w == World(ResetStale(w0.table, show, job.up.cutoff), w0.files)
    case Recorded => ListsShow(job.up) && w == AfterListing(job, show, w0)
    case Loading(ids, phases) => LoadingStands(hash, job, show, w0, ids, phases, w)
    case Pruning(plan, k, cut) => PruningStands(hash, job, show, w0, plan, k, cut, w)
    case Over => w == Synced(hash, w0, show, job.policy, job.limit, job.up)
  }

  /** A full listing names no episode twice, and no two episodes of a show share a stem. */
  ghost predicate Orderly(job: Job, show: ShowSlug, w0: World) {
    && (job.up.listing.Success? && job.up.listing.value.Modified? ==> Distinct(ListedIds(job.up.listing.value.episodes)))
    && StemsApart(Listed(w0.table, show, job.up))
  }

  lemma WindowIsDistinct(job: Job, show: ShowSlug, w0: World)
    requires Orderly(job, show, w0) && ListsShow(job.up)
    ensures Distinct(Window(w0.table, show, job.limit, job.up))
  {
    OrderedRows(Listed(w0.table, show, job.up), show);
  }

  lemma StemsOfIds(t: Table, show: ShowSlug, ids: seq<EpisodeId>)
    requires StemsApart(t) && Distinct(ids) && AllPending(t, show, ids)
    ensures DistinctStems(show, ids)
  {
    forall i, j | 0 <= i < j < |ids| ensures Stem(ids[i]) != Stem(ids[j]) {
      assert ids[i] in ids && ids[j] in ids && ids[i] != ids[j];
    }
  }

  lemma BatchIsProper(hash: Bytes -> Hash, job: Job, show: ShowSlug, w0: World)
    requires Orderly(job, show, w0) && ListsShow(job.up)
    ensures Transfers.Proper(BatchOf(hash, job, show, w0))
    ensures forall id :: id in BatchOf(hash, job, show, w0).ids ==> IsPending(BatchOf(hash, job, show, w0).start.table, Key(show, id))
  {
    var t, window := Listed(w0.table, show, job.up), Window(w0.table, show, job.limit, job.up);
    WindowIsDistinct(job, show, w0);
    PendingMembers(t, show, job.policy, window);
    StemsOfIds(t, show, Pending(t, show, job.policy, window));
  }

  lemma NoteStanding(hash: Bytes -> Hash, job: Job, show: ShowSlug, w0: World, w: World)
    requires Standing(hash, job, show, w0, Healed, w)
    ensures Standing(hash, job, show, w0, NoteStep(job, show, w).0, NoteStep(job, show, w).1)
  {
  }

  lemma PlanStanding(hash: Bytes -> Hash, job: Job, show: ShowSlug, w0: World, w: World)
    requires Standing(hash, job, show, w0, Recorded, w)
    ensures Standing(hash, job, show, w0, PlanStep(job, show, w).0, PlanStep(job, show, w).1)
  {
    var b := BatchOf(hash, job, show, w0);
    assert WindowNow(w.table, show, job) == Window(w0.table, show, job.limit, job.up);
    assert Transfers.First(b) == Transfers.Busy(w, Queue(|b.ids|));
    assert Transfers.Run(b, []) == Transfers.First(b);
  }

  lemma TickReached(b: Transfers.Batch, s: Transfers.Busy, e: Transfers.Event)
    requires Reached(b, s) && |s.phases| == |b.ids|
    ensures Reached(b, TickStep(b.hash, b.up, b.show, b.ids, s.phases, s.world, e))
  {
    var own :| Transfers.Run(b, own) == s;
    assert (own + [e])[..|own|] == own;
    assert Transfers.Run(b, own + [e]) == Transfers.Step(b, s, e);
  }

  lemma TickStanding(
    hash: Bytes -> Hash, job: Job, show: ShowSlug, w0: World, ids: seq<EpisodeId>, phases: seq<Transfers.Phase>, w: World,
    e: Transfers.Event)
    requires LoadingStands(hash, job, show, w0, ids, phases, w) && |phases| == |ids|
    ensures var s := TickStep(hash, job.up, show, ids, phases, w, e);
            LoadingStands(hash, job, show, w0, ids, s.phases, s.world)
  {
    TickReached(BatchOf(hash, job, show, w0), Transfers.Busy(w, phases), e);
  }

  lemma ChooseStanding(
    hash: Bytes -> Hash, job: Job, show: ShowSlug, w0: World, ids: seq<EpisodeId>, phases: seq<Transfers.Phase>, w: World)
    requires Orderly(job, show, w0) && AllOver(phases) && LoadingStands(hash, job, show, w0, ids, phases, w)
    ensures PruningStands(hash, job, show, w0, PrunePlan(w.table, show, job.policy), 0, false, w)
  {
    var b := BatchOf(hash, job, show, w0);
    var own :| Transfers.Run(b, own) == Transfers.Busy(w, phases);
    BatchIsProper(hash, job, show, w0);
    Transfers.AnyInterleavingIsSequential(b, own);
  }

  lemma PruneNext(w1: World, show: ShowSlug, plan: seq<EpisodeId>, k: nat, up: Upstream)
    requires k < |plan|
    ensures Prune(w1, show, plan[..k + 1], up) == PruneOne(Prune(w1, show, plan[..k], up), Key(show, plan[k]), up)
  {
    assert plan[..k + 1][..k] == plan[..k];
  }

  lemma DeleteSoFar(job: Job, show: ShowSlug, w1: World, plan: seq<EpisodeId>, k: nat, w: World)
    requires k < |plan| && PrunedSoFar(job, show, w1, plan, k, false, w)
    ensures var (p, w') := DeleteStep(job.up, show, plan, k, w);
            p.Pruning? && p.plan == plan && p.k <= |plan| && PrunedSoFar(job, show, w1, plan, p.k, p.cut, w')
  {
    PruneNext(w1, show, plan, k, job.up);
  }

  lemma MarkSoFar(job: Job, show: ShowSlug, w1: World, plan: seq<EpisodeId>, k: nat, w: World)
    requires k < |plan| && PrunedSoFar(job, show, w1, plan, k, true, w)
    ensures PrunedSoFar(job, show, w1, plan, k + 1, false, MarkStep(show, plan, k, w).1)
  {
    PruneNext(w1, show, plan, k, job.up);
  }

  lemma FinishStanding(hash: Bytes -> Hash, job: Job, show: ShowSlug, w0: World, plan: seq<EpisodeId>, k: nat, w: World)
    requires k == |plan| && PruningStands(hash, job, show, w0, plan, k, false, w)
    ensures w == Synced(hash, w0, show, job.policy, job.limit, job.up)
  {
    assert plan[..k] == plan;
  }

  /** One step of the pruning of `w1`. */
  lemma PruningTurn(
    hash: Bytes -> Hash, job: Job, show: ShowSlug, w1: World, plan: seq<EpisodeId>, k: nat, cut: bool, w: World, e: Event)
    requires k <= |plan| && PrunedSoFar(job, show, w1, plan, k, cut, w)
    ensures var (p, w') := SyncStep(hash, job, show, Pruning(plan, k, cut), w, e);
            if p.Over? then !cut && k == |plan| && w' == w
            else p.Pruning? && p.plan == plan && p.k <= |plan| && PrunedSoFar(job, show, w1, plan, p.k, p.cut, w')
  {
    if k < |plan| && cut && e.Mark? { MarkSoFar(job, show, w1, plan, k, w); }
    if k < |plan| && !cut && e.Delete? { DeleteSoFar(job, show, w1, plan, k, w); }
  }

  lemma PruningStep(
    hash: Bytes -> Hash, job: Job, show: ShowSlug, w0: World, plan: seq<EpisodeId>, k: nat, cut: bool, w: World, e: Event)
    requires PruningStands(hash, job, show, w0, plan, k, cut, w)
    ensures var (p, w') := SyncStep(hash, job, show, Pruning(plan, k, cut), w, e); Standing(hash, job, show, w0, p, w')
  {
    PruningTurn(hash, job, show, AfterDownloads(hash, job, show, w0), plan, k, cut, w, e);
    if SyncStep(hash, job, show, Pruning(plan, k, cut), w, e).0.Over? { FinishStanding(hash, job, show, w0, plan, k, w); }
  }

  lemma LoadingStep(hash: Bytes -> Hash, job: Job, show: ShowSlug, w0: World, p: Stage, w: World, e: Event)
    requires Orderly(job, show, w0) && p.Loading? && LoadingStands(hash, job, show, w0, p.ids, p.phases, w)
    ensures var (p', w') := SyncStep(hash, job, show, p, w, e); Standing(hash, job, show, w0, p', w')
  {
    if e.Tick? && |p.phases| == |p.ids| {
      TickStanding(hash, job, show, w0, p.ids, p.phases, w, e.e);
    } else if e.Choose? && AllOver(p.phases) {
      ChooseStanding(hash, job, show, w0, p.ids, p.phases, w);
    }
  }

  /** Every step of a sync leads from where it stands to where it should stand next. */
  lemma StepStanding(hash: Bytes -> Hash, job: Job, show: ShowSlug, w0: World, p: Stage, w: World, e: Event)
    requires Orderly(job, show, w0) && Standing(hash, job, show, w0, p, w)
    ensures var (p', w') := SyncStep(hash, job, show, p, w, e); Standing(hash, job, show, w0, p', w')
  {
    match p
    case Waiting =>
    case Healed => if e.Note? { NoteStanding(hash, job, show, w0, w); }
    case Recorded => if e.Plan? { PlanStanding(hash, job, show, w0, w); }
    case Loading(_, _) => LoadingStep(hash, job, show, w0, p, w, e);
    case Pruning(plan, k, cut) => PruningStep(hash, job, show, w0, plan, k, cut, w, e);
    case Over =>
  }

  // ----- agreement at every step -----

  /** The row whose file is deleted and that is not marked yet. */
  function Cutting(show: ShowSlug, p: Stage): set<Key> {
    if p.Pruning? && p.cut && p.k < |p.plan| then {Key(show, p.plan[p.k])} else {}
  }

  lemma HealAgrees(hash: Bytes -> Hash, job: Job, show: ShowSlug, w0: World, gaps: set<Key>)
    requires AgreesBut(hash, w0, gaps)
    ensures AgreesBut(hash, World(ResetStale(w0.table, show, job.up.cutoff), w0.files), gaps)
  {
    ListedAgrees(hash, w0, show, job.up.(listing := Failure(Http)), gaps);
  }

  lemma LoadingAgrees(
    hash: Bytes -> Hash, job: Job, show: ShowSlug, w0: World, ids: seq<EpisodeId>, phases: seq<Transfers.Phase>, w: World,
    gaps: set<Key>)
    requires Orderly(job, show, w0) && LoadingStands(hash, job, show, w0, ids, phases, w)
    requires AgreesBut(hash, AfterListing(job, show, w0), gaps) && Storable(hash, job.up)
    ensures AgreesBut(hash, w, gaps)
  {
    var b := BatchOf(hash, job, show, w0);
    var own :| Transfers.Run(b, own) == Transfers.Busy(w, phases);
    BatchIsProper(hash, job, show, w0);
    Transfers.AgreesThroughout(b, own, gaps);
    Transfers.SyncLeavesGaps(b, own, gaps);
  }

  lemma DownloadedAgrees(hash: Bytes -> Hash, job: Job, show: ShowSlug, w0: World, gaps: set<Key>)
    requires Orderly(job, show, w0) && job.up.listing.Success?
    requires AgreesBut(hash, AfterListing(job, show, w0), gaps) && Storable(hash, job.up)
    ensures AgreesBut(hash, AfterDownloads(hash, job, show, w0), gaps) && StemsApart(AfterDownloads(hash, job, show, w0).table)
  {
    var listed, window := AfterListing(job, show, w0), Window(w0.table, show, job.limit, job.up);
    PendingHasNoGaps(hash, listed, show, job.policy, window, gaps);
    DownloadsAgree(hash, listed, show, Pending(listed.table, show, job.policy, window), job.up, gaps);
    FewerStems(AfterDownloads(hash, job, show, w0).table, listed.table);
  }

  /** Half of a plan of cached rows. */
  lemma PlanFront(t: Table, show: ShowSlug, plan: seq<EpisodeId>, k: nat)
    requires Distinct(plan) && AllCached(t, show, plan) && k <= |plan|
    ensures Distinct(plan[..k]) && AllCached(t, show, plan[..k])
    ensures k < |plan| ==> plan[k] !in plan[..k] && IsCached(t, Key(show, plan[k]))
  {
    if k < |plan| { assert plan[k] in plan; }
    forall id | id in plan[..k] ensures id in plan {}
  }

  lemma PrunedAgrees(
    hash: Bytes -> Hash, job: Job, show: ShowSlug, w1: World, plan: seq<EpisodeId>, k: nat, before: World, gaps: set<Key>)
    requires AgreesBut(hash, w1, gaps) && StemsApart(w1.table) && k <= |plan|
    requires Distinct(plan) && AllCached(w1.table, show, plan) && before == Prune(w1, show, plan[..k], job.up)
    ensures AgreesBut(hash, before, StillCached(gaps, before.table)) && StemsApart(before.table)
    ensures k < |plan| ==> IsCached(before.table, Key(show, plan[k]))
  {
    PlanFront(w1.table, show, plan, k);
    PruneAgrees(hash, w1, show, plan[..k], job.up, gaps);
    FewerStems(before.table, w1.table);
    if k < |plan| { PruneRow(w1, show, plan[..k], job.up, Key(show, plan[k])); }
  }

  lemma CutStandingAgrees(hash: Bytes -> Hash, up: Upstream, show: ShowSlug, before: World, plan: seq<EpisodeId>, k: nat, gaps: set<Key>)
    requires AgreesBut(hash, before, StillCached(gaps, before.table)) && StemsApart(before.table)
    requires k < |plan| && IsCached(before.table, Key(show, plan[k])) && !Skipped(before.table, Key(show, plan[k]), up)
    ensures AgreesBut(hash, DeleteStep(up, show, plan, k, before).1, StillCached(gaps, before.table) + {Key(show, plan[k])})
  {
    var key := Key(show, plan[k]);
    assert RowStatus(hash, before, key, key in StillCached(gaps, before.table));
    CutAgrees(hash, before, key, before.table[key].data.filePath.value, StillCached(gaps, before.table));
  }

  lemma PruningAgrees(
    hash: Bytes -> Hash, job: Job, show: ShowSlug, w1: World, plan: seq<EpisodeId>, k: nat, cut: bool, w: World, gaps: set<Key>)
    requires AgreesBut(hash, w1, gaps) && StemsApart(w1.table) && plan == PrunePlan(w1.table, show, job.policy)
    requires k <= |plan| && PrunedSoFar(job, show, w1, plan, k, cut, w)
    ensures AgreesBut(hash, w, StillCached(gaps, w.table) + Cutting(show, Pruning(plan, k, cut)))
  {
    var before := Prune(w1, show, plan[..k], job.up);
    PlanMembers(w1.table, show, job.policy);
    PrunedAgrees(hash, job, show, w1, plan, k, before, gaps);
    if cut {
      CutStandingAgrees(hash, job.up, show, before, plan, k, gaps);
    } else {
      assert StillCached(gaps, w.table) + {} == StillCached(gaps, w.table);
    }
  }

  /** At every step of a sync the database and the disk agree but for the gaps it found and has not
      pruned, and for the row it is just pruning. */
  lemma StandingAgrees(hash: Bytes -> Hash, job: Job, show: ShowSlug, w0: World, p: Stage, w: World, gaps: set<Key>)
    requires Orderly(job, show, w0) && Standing(hash, job, show, w0, p, w)
    requires AgreesBut(hash, w0, gaps) && Storable(hash, job.up)
    ensures AgreesBut(hash, w, StillCached(gaps, w.table) + Cutting(show, p))
  {
    ListedAgrees(hash, w0, show, job.up, gaps);
    match p
    case Waiting => NoneCutting(hash, show, p, w, gaps);
    case Healed => HealAgrees(hash, job, show, w0, gaps); NoneCutting(hash, show, p, w, gaps);
    case Recorded => NoneCutting(hash, show, p, w, gaps);
    case Loading(ids, phases) =>
      LoadingAgrees(hash, job, show, w0, ids, phases, w, gaps);
      NoneCutting(hash, show, p, w, gaps);
    case Pruning(plan, k, cut) =>
      DownloadedAgrees(hash, job, show, w0, gaps);
      PruningAgrees(hash, job, show, AfterDownloads(hash, job, show, w0), plan, k, cut, w, gaps);
    case Over =>
      OverStems(hash, job, show, w0);
      SyncAgrees(hash, w0, show, job.policy, job.limit, job.up, gaps);
      assert StillCached(gaps, w.table) + {} == StillCached(gaps, w.table);
  }

  lemma NoneCutting(hash: Bytes -> Hash, show: ShowSlug, p: Stage, w: World, gaps: set<Key>)
    requires AgreesBut(hash, w, gaps) && Cutting(show, p) == {}
    ensures AgreesBut(hash, w, StillCached(gaps, w.table) + Cutting(show, p))
  {
    StillCachedStays(hash, w, gaps);
    assert gaps + {} == gaps;
  }

  lemma OverStems(hash: Bytes -> Hash, job: Job, show: ShowSlug, w0: World)
    requires Orderly(job, show, w0)
    ensures StemsApart(Synced(hash, w0, show, job.policy, job.limit, job.up).table)
  {
    var listed := AfterListing(job, show, w0);
    if ListsShow(job.up) { SyncedKeys(hash, listed, show, job.policy, Window(w0.table, show, job.limit, job.up), job.up); }
    FewerStems(Synced(hash, w0, show, job.policy, job.limit, job.up).table, listed.table);
  }

  // ----- a sync can always go on -----

  function PhaseLeft(phase: Transfers.Phase): nat {
    match phase
    case Queued => 3
    case Running => 2
    case Renamed => 1
    case Settled => 0
  }

  function PhasesLeft(phases: seq<Transfers.Phase>): nat {
    if phases == [] then 0 else PhasesLeft(phases[..|phases| - 1]) + PhaseLeft(phases[|phases| - 1])
  }

  lemma {:induction false} PhasesUpdate(phases: seq<Transfers.Phase>, i: nat, phase: Transfers.Phase)
    requires i < |phases|
    ensures PhasesLeft(phases[i := phase]) == PhasesLeft(phases) - PhaseLeft(phases[i]) + PhaseLeft(phase)
  {
    var n := |phases| - 1;
    if i < n {
      PhasesUpdate(phases[..n], i, phase);
      assert phases[i := phase][..n] == phases[..n][i := phase];
    } else {
      assert phases[i := phase][..n] == phases[..n];
    }
  }

  /** How many parts of a sync are still to come... */
  function PartsLeft(p: Stage): nat {
    match p
    case Waiting => 5
    case Healed => 4
    case Recorded => 3
    case Loading(_, _) => 2
    case Pruning(_, _, _) => 1
    case Over => 0
  }

  /** ... and how much of the present one is. */
  function PartLeft(p: Stage): nat {
    match p
    case Loading(_, phases) => PhasesLeft(phases)
    case Pruning(plan, k, cut) => if k <= |plan| then 2 * (|plan| - k) + (if cut then 0 else 1) else 0
    case _ => 0
  }

  predicate Nearer(p: Stage, p': Stage) {
    PartsLeft(p') < PartsLeft(p) || (PartsLeft(p') == PartsLeft(p) && PartLeft(p') < PartLeft(p))
  }

  /** The step of a download that is not over yet. */
  function NextTick(phase: Transfers.Phase, i: nat, arrives: bool): Transfers.Event {
    if phase.Queued? then Transfers.Start(i) else if phase.Running? && arrives then Transfers.Rename(i) else Transfers.Finish(i)
  }

  lemma NextPhaseNearer(s: Transfers.Busy, got: Result<Got, ErrorClass>, key: Key, i: nat)
    requires i < |s.phases| && !s.phases[i].Settled? && (s.phases[i].Renamed? ==> got.Success?)
    ensures PhaseLeft(Transfers.NextPhase(s, NextTick(s.phases[i], i, got.Success?), got, key)) < PhaseLeft(s.phases[i])
  {
  }

  lemma TickNearer(
    hash: Bytes -> Hash, up: Upstream, show: ShowSlug, ids: seq<EpisodeId>, phases: seq<Transfers.Phase>, w: World, i: nat,
    got: Result<Got, ErrorClass>)
    requires |phases| == |ids| && i < |ids| && !phases[i].Settled? && got == Fetched(hash, Key(show, ids[i]), up)
    requires phases[i].Renamed? ==> got.Success?
    ensures PhasesLeft(TickStep(hash, up, show, ids, phases, w, NextTick(phases[i], i, got.Success?)).phases) < PhasesLeft(phases)
  {
    var e, key, s := NextTick(phases[i], i, got.Success?), Key(show, ids[i]), Transfers.Busy(w, phases);
    var phase := Transfers.NextPhase(s, e, got, key);
    NextPhaseNearer(s, got, key, i);
    PhasesUpdate(phases, i, phase);
    assert e.i == i && TickStep(hash, up, show, ids, phases, w, e).phases == phases[i := phase];
  }

  /** What was put in place had arrived. */
  lemma RenamedArrives(
    hash: Bytes -> Hash, job: Job, show: ShowSlug, w0: World, ids: seq<EpisodeId>, phases: seq<Transfers.Phase>, alone: World)
    requires Orderly(job, show, w0) && LoadingStands(hash, job, show, w0, ids, phases, alone)
    ensures |phases| == |ids|
    ensures forall i :: 0 <= i < |phases| && phases[i].Renamed? ==> Fetched(hash, Key(show, ids[i]), job.up).Success?
  {
    var b := BatchOf(hash, job, show, w0);
    var own :| Transfers.Run(b, own) == Transfers.Busy(alone, phases);
    BatchIsProper(hash, job, show, w0);
    Transfers.EveryStateStands(b, own);
    forall i | 0 <= i < |phases| && phases[i].Renamed? ensures Fetched(hash, Key(show, ids[i]), job.up).Success? {
      assert Transfers.RowStands(b, Transfers.Run(b, own), i);
    }
  }

  lemma LoadingGoesOn(
    hash: Bytes -> Hash, job: Job, show: ShowSlug, ids: seq<EpisodeId>, phases: seq<Transfers.Phase>, w: World)
    returns (e: Event)
    requires |phases| == |ids|
    requires forall i :: 0 <= i < |phases| && phases[i].Renamed? ==> Fetched(hash, Key(show, ids[i]), job.up).Success?
    ensures Nearer(Loading(ids, phases), SyncStep(hash, job, show, Loading(ids, phases), w, e).0)
  {
    if i :| 0 <= i < |phases| && !phases[i].Settled? {
      var got := Fetched(hash, Key(show, ids[i]), job.up);
      TickNearer(hash, job.up, show, ids, phases, w, i, got);
      e := Tick(NextTick(phases[i], i, got.Success?));
    } else {
      e := Choose;
    }
  }

  lemma PruningGoesOn(
    hash: Bytes -> Hash, job: Job, show: ShowSlug, plan: seq<EpisodeId>, k: nat, cut: bool, w: World)
    returns (e: Event)
    requires k <= |plan| && (cut ==> k < |plan|)
    ensures Nearer(Pruning(plan, k, cut), SyncStep(hash, job, show, Pruning(plan, k, cut), w, e).0)
  {
    e := if cut then Mark else if k < |plan| then Delete else Finish;
  }

  lemma BeginningGoesOn(hash: Bytes -> Hash, job: Job, show: ShowSlug, p: Stage, w: World) returns (e: Event)
    requires p.Waiting? || p.Healed? || (p.Recorded? && job.up.listing.Success?)
    ensures Nearer(p, SyncStep(hash, job, show, p, w, e).0)
  {
    e := if p.Waiting? then Heal else if p.Healed? then Note else Plan;
  }

  /** As long as a sync is not over, one of its steps takes it further, whatever the other shows'
      syncs have done to the world since. */
  lemma SyncGoesOn(hash: Bytes -> Hash, job: Job, show: ShowSlug, w0: World, p: Stage, alone: World, w: World) returns (e: Event)
    requires Orderly(job, show, w0) && Standing(hash, job, show, w0, p, alone) && !p.Over?
    ensures Nearer(p, SyncStep(hash, job, show, p, w, e).0)
  {
    if p.Loading? {
      RenamedArrives(hash, job, show, w0, p.ids, p.phases, alone);
      e := LoadingGoesOn(hash, job, show, p.ids, p.phases, w);
    } else if p.Pruning? {
      e := PruningGoesOn(hash, job, show, p.plan, p.k, p.cut, w);
    } else {
      e := BeginningGoesOn(hash, job, show, p, w);
    }
  }
}
