/** The concurrent downloads of one sync, step by step: whatever the interleaving, they end as
    if done one after the other, and the database and the disk agree all along. */
module Transfers {
  import opened Wrappers
  import opened Domain
  import opened Timestamps
  import opened Retention
  import opened Episodes
  import opened Media
  import opened Download
  import opened World
  import opened Rows
  import opened Agreement

  /** Where one download stands: not begun, marked in the database, renamed into place, or
      recorded as a success or a failure. */
  datatype Phase = Queued | Running | Renamed | Settled

  /** The downloads one sync sets out to do, and the world it found. */
  datatype Batch = Batch(hash: Bytes -> Hash, start: World, show: ShowSlug, ids: seq<EpisodeId>, up: Upstream)

  datatype Busy = Busy(world: World, phases: seq<Phase>)

  /** One atomic step of one download; progress reports come from detached tasks and may come
      at any time. */
  datatype Event =
    | Start(i: nat)
    | Rename(i: nat)
    | Finish(i: nat)
    | Report(i: nat, done: nat, total: Option<nat>, now: Timestamp)

  function KeyOf(b: Batch, i: nat): Key
    requires i < |b.ids|
  {
    Key(b.show, b.ids[i])
  }

  function GotOf(b: Batch, i: nat): Result<Got, ErrorClass>
    requires i < |b.ids|
  {
    Fetched(b.hash, KeyOf(b, i), b.up)
  }

  /** The phase a step takes its download to. */
  function NextPhase(s: Busy, e: Event, got: Result<Got, ErrorClass>, key: Key): Phase
    requires e.i < |s.phases|
  {
    var phase := s.phases[e.i];
    match e
    case Start(_) =>
      if !phase.Queued? then phase else if Allowed(s.world.table, key, Downloading) then Running else Settled
    case Rename(_) => if phase.Running? && got.Success? then Renamed else phase
    case Finish(_) => if (phase.Running? && got.Failure?) || (phase.Renamed? && got.Success?) then Settled else phase
    case Report(_, _, _, _) => phase
  }

  /** What a step writes; a step that is not this download's turn writes nothing. */
  function NextWorld(s: Busy, e: Event, got: Result<Got, ErrorClass>, key: Key, finished: Timestamp): World
    requires e.i < |s.phases|
  {
    var t, files, phase := s.world.table, s.world.files, s.phases[e.i];
    match e
    case Start(_) =>
      if !phase.Queued? then s.world
      else if Allowed(t, key, Downloading) then World(MarkDownloading(t, key), files)
      else World(MarkFailed(t, key, Disk), files)
    case Rename(_) =>
      if phase.Running? && got.Success? then World(t, files[got.value.file.filePath := got.value.body]) else s.world
    case Finish(_) =>
      if phase.Running? && got.Failure? then World(MarkFailed(t, key, got.error), files)
      else if phase.Renamed? && got.Success? then World(MarkCached(t, key, got.value.file, finished), files)
      else s.world
    case Report(_, done, total, now) => World(SetProgress(t, key, done, total, now), files)
  }

  function Step(b: Batch, s: Busy, e: Event): (s': Busy)
    requires |s.phases| == |b.ids|
    ensures |s'.phases| == |b.ids|
  {
    if e.i >= |b.ids| then s
    else
      var key := KeyOf(b, e.i);
      Busy(NextWorld(s, e, GotOf(b, e.i), key, b.up.finished(key.id)),
           s.phases[e.i := NextPhase(s, e, GotOf(b, e.i), key)])
  }

  function First(b: Batch): Busy {
    Busy(b.start, seq(|b.ids|, i requires 0 <= i < |b.ids| => Queued))
  }

  function Run(b: Batch, events: seq<Event>): (s: Busy)
    ensures |s.phases| == |b.ids|
  {
    if events == [] then First(b)
    else Step(b, Run(b, events[..|events| - 1]), events[|events| - 1])
  }

  // ----- every reachable state, row by row and path by path -----

  /** The ids are distinct, so are their stems, and all may start downloading. */
  ghost predicate Proper(b: Batch) {
    Distinct(b.ids) && DistinctStems(b.show, b.ids) && AllPending(b.start.table, b.show, b.ids)
  }

  /** The row of a download, up to its progress columns, depends on its own phase only. */
  ghost predicate RowFits(before: Record, now: Record, phase: Phase, got: Result<Got, ErrorClass>, finished: Timestamp) {
    match phase
    case Queued => now == before
    case Running => now.state.Downloading? && Idle(now.data) == Idle(before.data)
    case Renamed => now.state.Downloading? && Idle(now.data) == Idle(before.data) && got.Success?
    case Settled =>
      now == if got.Success? then Record(Cached, Stored(before.data, got.value.file, finished))
             else Record(Failed(got.error), Idle(before.data))
  }

  ghost predicate RowStands(b: Batch, s: Busy, i: nat)
    requires i < |b.ids| && |s.phases| == |b.ids|
  {
    var key := KeyOf(b, i);
    && key in b.start.table && key in s.world.table
    && RowFits(b.start.table[key], s.world.table[key], s.phases[i], GotOf(b, i), b.up.finished(key.id))
  }

  ghost predicate InBatch(b: Batch, key: Key) {
    key.show == b.show && key.id in b.ids
  }

  ghost predicate OtherRowStands(b: Batch, s: Busy, key: Key) {
    (key in s.world.table <==> key in b.start.table) && (key in b.start.table ==> s.world.table[key] == b.start.table[key])
  }

  /** Download `i` has put its body at `p`. */
  ghost predicate Placed(b: Batch, s: Busy, i: nat, p: Path)
    requires |s.phases| == |b.ids|
  {
    i < |b.ids| && (s.phases[i].Renamed? || s.phases[i].Settled?) && Delivers(b.hash, KeyOf(b, i), b.up, p)
  }

  ghost predicate FileStands(b: Batch, s: Busy, p: Path)
    requires |s.phases| == |b.ids|
  {
    && (forall i: nat :: Placed(b, s, i, p) ==> p in s.world.files && s.world.files[p] == GotOf(b, i).value.body)
    && ((forall i: nat :: !Placed(b, s, i, p)) ==>
          (p in s.world.files <==> p in b.start.files) && (p in s.world.files ==> s.world.files[p] == b.start.files[p]))
  }

  /** A step writes to no row but its own. */
  lemma StepTouchesOne(s: Busy, e: Event, got: Result<Got, ErrorClass>, key: Key, finished: Timestamp, other: Key)
    requires e.i < |s.phases| && other != key
    ensures var t := NextWorld(s, e, got, key, finished).table;
            (other in t <==> other in s.world.table) && (other in t ==> t[other] == s.world.table[other])
  {
  }

  lemma OwnRowStep(
    s: Busy, e: Event, got: Result<Got, ErrorClass>, key: Key, finished: Timestamp, before: Record)
    requires e.i < |s.phases| && key in s.world.table && CanTransition(before.state, Downloading)
    requires RowFits(before, s.world.table[key], s.phases[e.i], got, finished)
    ensures var t := NextWorld(s, e, got, key, finished).table;
            key in t && RowFits(before, t[key], NextPhase(s, e, got, key), got, finished)
  {
    match e
    case Start(_) =>
    case Rename(_) =>
    case Finish(_) =>
    case Report(_, _, _, _) =>
  }

  lemma RowStep(b: Batch, s: Busy, e: Event, j: nat)
    requires Proper(b) && |s.phases| == |b.ids| && j < |b.ids| && RowStands(b, s, j)
    ensures RowStands(b, Step(b, s, e), j)
  {
    assert b.ids[j] in b.ids;
    if e.i < |b.ids| {
      var key := KeyOf(b, e.i);
      if e.i == j {
        OwnRowStep(s, e, GotOf(b, j), key, b.up.finished(key.id), b.start.table[key]);
      } else {
        assert b.ids[e.i] != b.ids[j];
        StepTouchesOne(s, e, GotOf(b, e.i), key, b.up.finished(key.id), KeyOf(b, j));
      }
    }
  }

  lemma OtherRowStep(b: Batch, s: Busy, e: Event, key: Key)
    requires |s.phases| == |b.ids| && !InBatch(b, key) && OtherRowStands(b, s, key)
    ensures OtherRowStands(b, Step(b, s, e), key)
  {
    if e.i < |b.ids| {
      assert b.ids[e.i] in b.ids;
      StepTouchesOne(s, e, GotOf(b, e.i), KeyOf(b, e.i), b.up.finished(b.ids[e.i]), key);
    }
  }

  ghost predicate RenamesTo(b: Batch, s: Busy, e: Event, p: Path)
    requires |s.phases| == |b.ids|
  {
    e.Rename? && e.i < |b.ids| && s.phases[e.i].Running? && Delivers(b.hash, KeyOf(b, e.i), b.up, p)
  }

  /** Only a rename puts a file in place, and only its own. */
  lemma PlacedStep(b: Batch, s: Busy, e: Event, i: nat, p: Path)
    requires Proper(b) && |s.phases| == |b.ids| && (i < |b.ids| ==> RowStands(b, s, i))
    ensures Placed(b, Step(b, s, e), i, p) <==> Placed(b, s, i, p) || (e.i == i && RenamesTo(b, s, e, p))
  {
    if i < |b.ids| {
      assert b.ids[i] in b.ids;
      assert KeyOf(b, i) in b.start.table && CanTransition(b.start.table[KeyOf(b, i)].state, Downloading);
    }
  }

  lemma FilesStep(b: Batch, s: Busy, e: Event, p: Path)
    requires |s.phases| == |b.ids|
    ensures var files := Step(b, s, e).world.files;
            if RenamesTo(b, s, e, p) then p in files && files[p] == GotOf(b, e.i).value.body
            else (p in files <==> p in s.world.files) && (p in files ==> files[p] == s.world.files[p])
  {
  }

  lemma FileStep(b: Batch, s: Busy, e: Event, p: Path)
    requires Proper(b) && |s.phases| == |b.ids| && forall j :: 0 <= j < |b.ids| ==> RowStands(b, s, j)
    requires FileStands(b, s, p)
    ensures FileStands(b, Step(b, s, e), p)
  {
    var s' := Step(b, s, e);
    FilesStep(b, s, e, p);
    forall i: nat ensures Placed(b, s', i, p) <==> Placed(b, s, i, p) || (e.i == i && RenamesTo(b, s, e, p)) {
      PlacedStep(b, s, e, i, p);
    }
    if RenamesTo(b, s, e, p) {
      forall i: nat | Placed(b, s', i, p) ensures i == e.i {
        OneDeliverer(b.hash, KeyOf(b, e.i), KeyOf(b, i), b.up, p);
      }
    }
  }

  /** What holds in every reachable state. */
  lemma {:induction false} EveryStateStands(b: Batch, events: seq<Event>)
    requires Proper(b)
    ensures forall i :: 0 <= i < |b.ids| ==> RowStands(b, Run(b, events), i)
    ensures forall key: Key :: !InBatch(b, key) ==> OtherRowStands(b, Run(b, events), key)
    ensures forall p: Path :: FileStands(b, Run(b, events), p)
  {
    if events == [] {
      forall i | 0 <= i < |b.ids| ensures RowStands(b, First(b), i) { assert b.ids[i] in b.ids; }
    } else {
      var n := |events| - 1;
      var s, e := Run(b, events[..n]), events[n];
      EveryStateStands(b, events[..n]);
      forall i | 0 <= i < |b.ids| ensures RowStands(b, Run(b, events), i) { RowStep(b, s, e, i); }
      forall key: Key | !InBatch(b, key) ensures OtherRowStands(b, Run(b, events), key) { OtherRowStep(b, s, e, key); }
      forall p: Path ensures FileStands(b, Run(b, events), p) { FileStep(b, s, e, p); }
    }
  }

  /** A progress report shows in the row of a download under way and nowhere else; one that comes
      before the start or after the end is lost without a trace. */
  lemma ReportsShow(b: Batch, events: seq<Event>, i: nat, done: nat, total: Option<nat>, now: Timestamp)
    requires Proper(b) && i < |b.ids|
    ensures var s, s' := Run(b, events), Run(b, events + [Report(i, done, total, now)]);
            var key := Key(b.show, b.ids[i]);
            if s.phases[i].Running? || s.phases[i].Renamed? then
              && s'.world.files == s.world.files && s'.phases == s.phases
              && key in s.world.table && s'.world.table.Keys == s.world.table.Keys
              && ProgressFrom(s.world.table[key], s'.world.table[key], done, total, now)
              && s'.world.table[key].data.progressAt == Some(now)
              && forall other :: other in s.world.table && other != key ==> s'.world.table[other] == s.world.table[other]
            else s' == s
  {
    var e := Report(i, done, total, now);
    assert (events + [e])[..|events|] == events;
    EveryStateStands(b, events);
    var s, key := Run(b, events), Key(b.show, b.ids[i]);
    assert RowStands(b, s, i) && b.ids[i] in b.ids;
    ProgressRow(s.world.table, key, done, total, now);
    assert s.phases[i := s.phases[i]] == s.phases;
  }

  // ----- the end state -----

  ghost predicate AllSettled(b: Batch, s: Busy) {
    |s.phases| == |b.ids| && forall i :: 0 <= i < |b.ids| ==> s.phases[i].Settled?
  }

  lemma SettledRowAgrees(b: Batch, s: Busy, key: Key)
    requires Proper(b) && AllSettled(b, s)
    requires forall i :: 0 <= i < |b.ids| ==> RowStands(b, s, i)
    requires !InBatch(b, key) ==> OtherRowStands(b, s, key)
    ensures var t := Downloads(b.hash, b.start, b.show, b.ids, b.up).table;
            (key in s.world.table <==> key in t) && (key in t ==> s.world.table[key] == t[key])
  {
    DownloadRow(b.hash, b.start, b.show, b.ids, b.up, key);
    if InBatch(b, key) {
      var i :| 0 <= i < |b.ids| && b.ids[i] == key.id;
      assert RowStands(b, s, i) && KeyOf(b, i) == key;
    }
  }

  lemma SettledFileAgrees(b: Batch, s: Busy, p: Path)
    requires Proper(b) && AllSettled(b, s) && FileStands(b, s, p)
    ensures var files := Downloads(b.hash, b.start, b.show, b.ids, b.up).files;
            (p in s.world.files <==> p in files) && (p in files ==> s.world.files[p] == files[p])
  {
    if i: nat :| i < |b.ids| && Delivers(b.hash, KeyOf(b, i), b.up, p) {
      assert Placed(b, s, i, p) && b.ids[i] in b.ids;
      DeliveredFile(b.hash, b.start, b.show, b.ids, b.up, b.ids[i], p);
    } else {
      forall id | id in b.ids ensures !Delivers(b.hash, Key(b.show, id), b.up, p) {
        var i :| 0 <= i < |b.ids| && b.ids[i] == id;
        assert !Delivers(b.hash, KeyOf(b, i), b.up, p);
      }
      UndeliveredFile(b.hash, b.start, b.show, b.ids, b.up, p);
      assert forall i: nat :: !Placed(b, s, i, p);
    }
  }

  /** Whatever the interleaving of the downloads and their progress reports, once all have
      finished the world is the one that downloading them one by one would have left. */
  lemma AnyInterleavingIsSequential(b: Batch, events: seq<Event>)
    requires Proper(b) && AllSettled(b, Run(b, events))
    ensures Run(b, events).world == Downloads(b.hash, b.start, b.show, b.ids, b.up)
  {
    var s, w := Run(b, events), Downloads(b.hash, b.start, b.show, b.ids, b.up);
    EveryStateStands(b, events);
    forall key: Key ensures key in s.world.table <==> key in w.table
                    ensures key in w.table ==> s.world.table[key] == w.table[key] {
      SettledRowAgrees(b, s, key);
    }
    forall p: Path ensures p in s.world.files <==> p in w.files
                   ensures p in w.files ==> s.world.files[p] == w.files[p] {
      SettledFileAgrees(b, s, p);
    }
    assert s.world.table == w.table && s.world.files == w.files;
  }

  /** So a sync whose downloads overlap settles in the same state as the one that takes them in
      turn, as long as no two episodes of the show share a stem. */
  lemma ConcurrentSyncSettles(
    hash: Bytes -> Hash, w: World, show: ShowSlug, policy: Policy, window: seq<EpisodeId>, up: Upstream, events: seq<Event>)
    requires Distinct(window) && StemsApart(w.table)
    requires var b := Batch(hash, w, show, Pending(w.table, show, policy, window), up); AllSettled(b, Run(b, events))
    ensures var w' := Run(Batch(hash, w, show, Pending(w.table, show, policy, window), up), events).world;
            Prune(w', show, PrunePlan(w'.table, show, policy), up) == Settle(hash, w, show, policy, window, up)
  {
    var b := Batch(hash, w, show, Pending(w.table, show, policy, window), up);
    PendingMembers(w.table, show, policy, window);
    forall i, j | 0 <= i < j < |b.ids| ensures Stem(b.ids[i]) != Stem(b.ids[j]) {
      assert b.ids[i] in b.ids && b.ids[j] in b.ids && b.ids[i] != b.ids[j];
    }
    AnyInterleavingIsSequential(b, events);
  }

  // ----- agreement in between -----

  lemma RowStaysPlaced(b: Batch, s: Busy, key: Key)
    requires Proper(b) && |s.phases| == |b.ids| && RowPlaced(b.start.table, key)
    requires forall i :: 0 <= i < |b.ids| ==> RowStands(b, s, i)
    requires !InBatch(b, key) ==> OtherRowStands(b, s, key)
    ensures RowPlaced(s.world.table, key)
  {
    if InBatch(b, key) {
      var i :| 0 <= i < |b.ids| && b.ids[i] == key.id;
      assert RowStands(b, s, i) && KeyOf(b, i) == key;
      if s.phases[i].Settled? && GotOf(b, i).Success? { FetchedFile(b.hash, key, b.up); }
    }
  }

  /** A row that is cached again has its own body in place. */
  lemma SettledFileIsPlaced(b: Batch, s: Busy, i: nat)
    requires |s.phases| == |b.ids| && i < |b.ids| && Storable(b.hash, b.up)
    requires RowStands(b, s, i) && s.phases[i].Settled? && GotOf(b, i).Success?
    requires FileStands(b, s, GotOf(b, i).value.file.filePath)
    ensures RowAgrees(b.hash, s.world, KeyOf(b, i))
  {
    FetchedFile(b.hash, KeyOf(b, i), b.up);
    assert Placed(b, s, i, GotOf(b, i).value.file.filePath);
  }

  /** No download writes to the file of another row, nor to a path a cut-off pruning left empty. */
  lemma UntouchedRowStands(b: Batch, s: Busy, key: Key, gap: bool)
    requires Proper(b) && |s.phases| == |b.ids| && StemsApart(b.start.table)
    requires OtherRowStands(b, s, key) && RowStatus(b.hash, b.start, key, gap)
    requires forall i :: 0 <= i < |b.ids| && KeyOf(b, i) == key ==> s.phases[i].Queued?
    requires IsCached(b.start.table, key) ==> FileStands(b, s, b.start.table[key].data.filePath.GetOr(""))
    ensures RowStatus(b.hash, s.world, key, gap)
  {
    if IsCached(s.world.table, key) {
      var p := b.start.table[key].data.filePath.value;
      forall i: nat ensures !Placed(b, s, i, p) { NotPlaced(b, s, key, i, p); }
    }
  }

  lemma NotPlaced(b: Batch, s: Busy, key: Key, i: nat, p: Path)
    requires Proper(b) && |s.phases| == |b.ids| && StemsApart(b.start.table)
    requires key in b.start.table && Owns(key, p)
    requires i < |b.ids| && KeyOf(b, i) == key ==> s.phases[i].Queued?
    ensures !Placed(b, s, i, p)
  {
    if i < |b.ids| && Delivers(b.hash, KeyOf(b, i), b.up, p) {
      assert b.ids[i] in b.ids;
      FetchedFile(b.hash, KeyOf(b, i), b.up);
      PathHasOneOwner(b.start.table, KeyOf(b, i), key, p);
    }
  }

  lemma BatchRowStands(b: Batch, s: Busy, i: nat, gap: bool)
    requires Proper(b) && |s.phases| == |b.ids| && i < |b.ids| && Storable(b.hash, b.up) && StemsApart(b.start.table)
    requires RowStands(b, s, i) && RowStatus(b.hash, b.start, KeyOf(b, i), gap) && forall p: Path :: FileStands(b, s, p)
    requires RowPlaced(s.world.table, KeyOf(b, i))
    ensures RowStatus(b.hash, s.world, KeyOf(b, i), gap && s.phases[i].Queued?)
  {
    if s.phases[i].Settled? && GotOf(b, i).Success? {
      SettledFileIsPlaced(b, s, i);
    } else if s.phases[i].Queued? {
      forall j | 0 <= j < |b.ids| && KeyOf(b, j) == KeyOf(b, i) ensures j == i { assert b.ids[j] == b.ids[i]; }
      UntouchedRowStands(b, s, KeyOf(b, i), gap);
    }
  }

  /** The gaps whose own download, if the batch has one, has not begun. */
  ghost function GapsLeft(b: Batch, s: Busy, gaps: set<Key>): set<Key>
    requires |s.phases| == |b.ids|
  {
    set key | key in gaps && forall i :: 0 <= i < |b.ids| && KeyOf(b, i) == key ==> s.phases[i].Queued?
  }

  /** At every moment of every interleaving, hence also when the process dies there, the database
      and the disk agree but for the gaps there were at the start, and a gap is closed as soon as
      its own download begins. */
  lemma AgreesThroughout(b: Batch, events: seq<Event>, gaps: set<Key>)
    requires Proper(b) && AgreesBut(b.hash, b.start, gaps) && StemsApart(b.start.table) && Storable(b.hash, b.up)
    ensures AgreesBut(b.hash, Run(b, events).world, GapsLeft(b, Run(b, events), gaps))
  {
    var s := Run(b, events);
    EveryStateStands(b, events);
    forall key: Key ensures RowStatus(b.hash, s.world, key, key in GapsLeft(b, s, gaps)) {
      assert RowStatus(b.hash, b.start, key, key in gaps);
      RowStaysPlaced(b, s, key);
      if InBatch(b, key) {
        var i :| 0 <= i < |b.ids| && b.ids[i] == key.id;
        assert KeyOf(b, i) == key;
        forall j | 0 <= j < |b.ids| && KeyOf(b, j) == key ensures j == i { assert b.ids[j] == b.ids[i]; }
        BatchRowStands(b, s, i, key in gaps);
      } else {
        forall i | 0 <= i < |b.ids| ensures KeyOf(b, i) != key { assert b.ids[i] in b.ids; }
        UntouchedRowStands(b, s, key, key in gaps);
      }
    }
  }

  /** The downloads of a sync fetch no gap, since its row is cached. */
  lemma SyncLeavesGaps(b: Batch, events: seq<Event>, gaps: set<Key>)
    requires AgreesBut(b.hash, b.start, gaps) && forall id :: id in b.ids ==> IsPending(b.start.table, Key(b.show, id))
    ensures GapsLeft(b, Run(b, events), gaps) == gaps
  {
    forall key | key in gaps ensures !InBatch(b, key) { assert RowStatus(b.hash, b.start, key, true); }
    forall key, i | key in gaps && 0 <= i < |b.ids| ensures KeyOf(b, i) != key { assert b.ids[i] in b.ids; }
  }

  // ----- two syncs of one show -----

  /** The batch goes on from a state that something else may have touched. */
  function RunFrom(b: Batch, s: Busy, events: seq<Event>): (s': Busy)
    requires |s.phases| == |b.ids|
    ensures |s'.phases| == |b.ids|
  {
    if events == [] then s else Step(b, RunFrom(b, s, events[..|events| - 1]), events[|events| - 1])
  }

  /** A download under way whose row was marked failed by someone else. */
  ghost predicate Clobbered(b: Batch, s: Busy, i: nat)
    requires |s.phases| == |b.ids|
  {
    && i < |b.ids| && !s.phases[i].Queued?
    && KeyOf(b, i) in s.world.table && s.world.table[KeyOf(b, i)].state == Failed(Disk)
  }

  lemma OwnStepRefused(s: Busy, e: Event, got: Result<Got, ErrorClass>, key: Key, finished: Timestamp)
    requires e.i < |s.phases| && !s.phases[e.i].Queued?
    requires key in s.world.table && s.world.table[key].state == Failed(Disk)
    ensures NextWorld(s, e, got, key, finished).table == s.world.table && !NextPhase(s, e, got, key).Queued?
  {
  }

  lemma ClobberedStep(b: Batch, s: Busy, e: Event, i: nat)
    requires Distinct(b.ids) && |s.phases| == |b.ids| && Clobbered(b, s, i)
    ensures Clobbered(b, Step(b, s, e), i)
  {
    if e.i < |b.ids| {
      var key := KeyOf(b, e.i);
      if e.i == i {
        OwnStepRefused(s, e, GotOf(b, i), key, b.up.finished(key.id));
      } else {
        assert b.ids[e.i] != b.ids[i];
        StepTouchesOne(s, e, GotOf(b, e.i), key, b.up.finished(key.id), KeyOf(b, i));
      }
    }
  }

  lemma {:induction false} ClobberedForGood(b: Batch, s: Busy, events: seq<Event>, i: nat)
    requires Distinct(b.ids) && |s.phases| == |b.ids| && Clobbered(b, s, i)
    ensures Clobbered(b, RunFrom(b, s, events), i)
  {
    if events != [] {
      ClobberedForGood(b, s, events[..|events| - 1], i);
      ClobberedStep(b, RunFrom(b, s, events[..|events| - 1]), events[|events| - 1], i);
    }
  }

  /** At any moment of a batch, starting one of its rows is refused to another sync exactly while
      the batch has that download under way. */
  lemma RefusedWhileUnderWay(b: Batch, events: seq<Event>, i: nat)
    requires Proper(b) && i < |b.ids|
    ensures Allowed(Run(b, events).world.table, KeyOf(b, i), Downloading)
            <==> Run(b, events).phases[i].Queued? || Run(b, events).phases[i].Settled?
  {
    EveryStateStands(b, events);
    assert RowStands(b, Run(b, events), i) && b.ids[i] in b.ids;
  }

  /** A download whose row another sync has taken is over at its start: the row is marked failed with
      class disk, its finished columns kept, as by a lone download in that world. */
  lemma RefusedAtStart(b: Batch, s: Busy, i: nat)
    requires |s.phases| == |b.ids| && i < |b.ids| && s.phases[i].Queued?
    requires KeyOf(b, i) in s.world.table && s.world.table[KeyOf(b, i)].state.Downloading?
    ensures var s', key := Step(b, s, Start(i)), KeyOf(b, i);
            && s'.phases == s.phases[i := Settled] && s'.world.files == s.world.files
            && s'.world.table.Keys == s.world.table.Keys
            && s'.world.table[key].state == Failed(Disk)
            && SameButProgress(s.world.table[key].data, s'.world.table[key].data)
            && (forall other :: other in s.world.table && other != key ==> s'.world.table[other] == s.world.table[other])
            && s'.world == DownloadOne(b.hash, s.world, key, b.up)
  {
  }

  /** Two syncs of one show do not exclude each other: when another sync tries a row whose download
      is under way, its refusal is recorded as a failure, and whatever the batch does from then
      on, the row stays failed and its finished file is never recorded. */
  lemma LoserFailsTheWinner(b: Batch, events: seq<Event>, i: nat, other: Upstream, later: seq<Event>)
    requires Proper(b) && i < |b.ids|
    requires !Run(b, events).phases[i].Queued? && !Run(b, events).phases[i].Settled?
    ensures var s := Run(b, events);
            var hit := Busy(DownloadOne(b.hash, s.world, KeyOf(b, i), other), s.phases);
            Clobbered(b, RunFrom(b, hit, later), i)
  {
    var s := Run(b, events);
    EveryStateStands(b, events);
    RefusedWhileUnderWay(b, events, i);
    assert RowStands(b, s, i);
    ClobberedForGood(b, Busy(DownloadOne(b.hash, s.world, KeyOf(b, i), other), s.phases), later, i);
  }
}
