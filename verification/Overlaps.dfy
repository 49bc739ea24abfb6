/** Whole syncs of different shows, overlapping step by step: they end, and stand at every moment, as
    if alone. */
module Overlaps {
  import opened Domain
  import opened Episodes
  import opened Download
  import opened World
  import opened Agreement
  import opened Shows
  import opened Syncing
  import opened Boundaries

  /** No sync has begun. */
  ghost function Begun(w0: World): System<Stage> {
    System(w0, show => Waiting)
  }

  /** Where the syncs of all shows stand after `turns`. */
  ghost function After(hash: Bytes -> Hash, jobs: ShowSlug -> Job, w0: World, turns: seq<Turn<Event>>): System<Stage> {
    Go(Syncs(hash, jobs), Begun(w0), turns)
  }

  ghost predicate AllOrderly(jobs: ShowSlug -> Job, w0: World) {
    forall show :: Orderly(jobs(show), show, w0)
  }

  lemma {:induction false} AloneStands(hash: Bytes -> Hash, jobs: ShowSlug -> Job, w0: World, turns: seq<Turn<Event>>, show: ShowSlug)
    requires Orderly(jobs(show), show, w0) && forall i :: 0 <= i < |turns| ==> turns[i].show == show
    ensures var s := After(hash, jobs, w0, turns); Standing(hash, jobs(show), show, w0, s.at(show), s.world)
  {
    if turns != [] {
      var n := |turns| - 1;
      var s := After(hash, jobs, w0, turns[..n]);
      AloneStands(hash, jobs, w0, turns[..n], show);
      StepStanding(hash, jobs(show), show, w0, s.at(show), s.world, turns[n].e);
    }
  }

  /** Among any overlapping syncs, each has brought its show to where it would have brought it alone. */
  lemma EachStands(hash: Bytes -> Hash, jobs: ShowSlug -> Job, w0: World, turns: seq<Turn<Event>>, show: ShowSlug)
    returns (alone: World)
    requires Tidy(w0.table) && Orderly(jobs(show), show, w0)
    ensures var s := After(hash, jobs, w0, turns);
            SamePart(alone, s.world, show) && Standing(hash, jobs(show), show, w0, s.at(show), alone)
  {
    SyncsAreLocal(hash, jobs);
    EachShowAlone(Syncs(hash, jobs), AnyStage(), Begun(w0), turns, show);
    OfOne(turns, show);
    AloneStands(hash, jobs, w0, Of(turns, show), show);
    alone := After(hash, jobs, w0, Of(turns, show)).world;
  }

  // ----- the end -----

  /** The syncs of `shows`, one after the other. */
  ghost function InTurn(hash: Bytes -> Hash, jobs: ShowSlug -> Job, w0: World, shows: seq<ShowSlug>): World {
    if shows == [] then w0
    else
      var n := |shows| - 1;
      Synced(hash, InTurn(hash, jobs, w0, shows[..n]), shows[n], jobs(shows[n]).policy, jobs(shows[n]).limit, jobs(shows[n]).up)
  }

  lemma {:induction false} InTurnPart(hash: Bytes -> Hash, jobs: ShowSlug -> Job, w0: World, shows: seq<ShowSlug>, show: ShowSlug)
    requires Tidy(w0.table) && Distinct(shows)
    ensures Tidy(InTurn(hash, jobs, w0, shows).table)
    ensures var job := jobs(show);
            SamePart(if show in shows then Synced(hash, w0, show, job.policy, job.limit, job.up) else w0,
                     InTurn(hash, jobs, w0, shows), show)
  {
    if shows != [] {
      var n := |shows| - 1;
      var before, last := InTurn(hash, jobs, w0, shows[..n]), shows[n];
      assert shows == shows[..n] + [last];
      assert last !in shows[..n];
      InTurnPart(hash, jobs, w0, shows[..n], show);
      if show == last {
        SyncedInside(hash, jobs(last), last, w0, before);
        SyncedInside(hash, jobs(last), last, before, before);
      } else {
        SyncedInside(hash, jobs(last), last, before, before);
        OthersSpared(before, InTurn(hash, jobs, w0, shows), last, show);
        PartsCompose(if show in shows then Synced(hash, w0, show, jobs(show).policy, jobs(show).limit, jobs(show).up) else w0,
                     before, InTurn(hash, jobs, w0, shows), show);
      }
    }
  }

  lemma SyncedNobody(hash: Bytes -> Hash, job: Job, show: ShowSlug, w: World, p: Path)
    requires Tidy(w.table) && !InShow(p, show)
    ensures SameAt(w.files, Synced(hash, w, show, job.policy, job.limit, job.up).files, p)
  {
    SyncedInside(hash, job, show, w, w);
  }

  lemma {:induction false} InTurnNobody(hash: Bytes -> Hash, jobs: ShowSlug -> Job, w0: World, shows: seq<ShowSlug>, p: Path)
    requires Tidy(w0.table) && Distinct(shows) && forall show :: !InShow(p, show)
    ensures SameAt(w0.files, InTurn(hash, jobs, w0, shows).files, p)
  {
    if shows != [] {
      var n := |shows| - 1;
      var before, last := InTurn(hash, jobs, w0, shows[..n]), shows[n];
      InTurnNobody(hash, jobs, w0, shows[..n], p);
      InTurnPart(hash, jobs, w0, shows[..n], last);
      SyncedNobody(hash, jobs(last), last, before, p);
    }
  }

  /** The syncs of `shows` are over, and no other has begun. */
  ghost predicate ExactlyOver(s: System<Stage>, shows: seq<ShowSlug>) {
    forall show :: if show in shows then s.at(show).Over? else s.at(show).Waiting?
  }

  lemma OverPart(hash: Bytes -> Hash, jobs: ShowSlug -> Job, w0: World, turns: seq<Turn<Event>>, shows: seq<ShowSlug>, show: ShowSlug)
    requires Tidy(w0.table) && AllOrderly(jobs, w0) && Distinct(shows) && ExactlyOver(After(hash, jobs, w0, turns), shows)
    ensures SamePart(InTurn(hash, jobs, w0, shows), After(hash, jobs, w0, turns).world, show)
  {
    var alone := EachStands(hash, jobs, w0, turns, show);
    InTurnPart(hash, jobs, w0, shows, show);
    PartsCompose(InTurn(hash, jobs, w0, shows), alone, After(hash, jobs, w0, turns).world, show);
  }

  /** However the steps of syncs of different shows interleave, once they are over the world is the
      one that syncing the shows one after the other leaves, in whatever order. */
  lemma OverlappingSyncs(hash: Bytes -> Hash, jobs: ShowSlug -> Job, w0: World, turns: seq<Turn<Event>>, shows: seq<ShowSlug>)
    requires Tidy(w0.table) && AllOrderly(jobs, w0) && Distinct(shows) && ExactlyOver(After(hash, jobs, w0, turns), shows)
    ensures After(hash, jobs, w0, turns).world == InTurn(hash, jobs, w0, shows)
  {
    var x, y := InTurn(hash, jobs, w0, shows), After(hash, jobs, w0, turns).world;
    forall show ensures SamePart(x, y, show) { OverPart(hash, jobs, w0, turns, shows, show); }
    forall p: Path | forall show :: !InShow(p, show) ensures SameAt(x.files, y.files, p) {
      InTurnNobody(hash, jobs, w0, shows, p);
      SyncsAreLocal(hash, jobs);
      NobodysFilesStay(Syncs(hash, jobs), AnyStage(), Begun(w0), turns, p);
    }
    WorldIsItsParts(x, y);
  }

  lemma OneStepOn(hash: Bytes -> Hash, jobs: ShowSlug -> Job, w0: World, turns: seq<Turn<Event>>, show: ShowSlug)
    requires Tidy(w0.table) && Orderly(jobs(show), show, w0) && !After(hash, jobs, w0, turns).at(show).Over?
    ensures exists e :: Advances(Syncs(hash, jobs), Begun(w0), turns, show, e, PartsLeft, PartLeft)
  {
    var s := After(hash, jobs, w0, turns);
    var alone := EachStands(hash, jobs, w0, turns, show);
    var e := SyncGoesOn(hash, jobs(show), show, w0, s.at(show), alone, s.world);
    GoAppend(Syncs(hash, jobs), Begun(w0), turns, Turn(show, e));
    assert Advances(Syncs(hash, jobs), Begun(w0), turns, show, e, PartsLeft, PartLeft);
  }

  lemma AlwaysOneStepOn(hash: Bytes -> Hash, jobs: ShowSlug -> Job, w0: World, show: ShowSlug)
    requires Tidy(w0.table) && Orderly(jobs(show), show, w0)
    ensures forall x: seq<Turn<Event>> :: !Go(Syncs(hash, jobs), Begun(w0), x).at(show).Over? ==>
              exists e :: Advances(Syncs(hash, jobs), Begun(w0), x, show, e, PartsLeft, PartLeft)
  {
    forall x: seq<Turn<Event>> | !Go(Syncs(hash, jobs), Begun(w0), x).at(show).Over?
      ensures exists e :: Advances(Syncs(hash, jobs), Begun(w0), x, show, e, PartsLeft, PartLeft)
    {
      OneStepOn(hash, jobs, w0, x, show);
    }
  }

  /** From any moment on, each sync can be brought to its end by steps of its own. */
  lemma EverySyncCanFinish(hash: Bytes -> Hash, jobs: ShowSlug -> Job, w0: World, turns: seq<Turn<Event>>, show: ShowSlug)
    returns (longer: seq<Turn<Event>>)
    requires Tidy(w0.table) && Orderly(jobs(show), show, w0)
    ensures turns <= longer && After(hash, jobs, w0, longer).at(show).Over?
    ensures forall i :: |turns| <= i < |longer| ==> longer[i].show == show
  {
    AlwaysOneStepOn(hash, jobs, w0, show);
    longer := CanFinish(Syncs(hash, jobs), Begun(w0), turns, show, (p: Stage) => p.Over?, PartsLeft, PartLeft);
  }

  // ----- and in between -----

  /** The rows whose files some sync has deleted and not marked yet: at most one of each show. */
  ghost function AllCutting(s: System<Stage>): set<Key> {
    set key | key in s.world.table && key in Cutting(key.show, s.at(key.show))
  }

  lemma StatusInside(hash: Bytes -> Hash, w: World, w': World, key: Key, gap: bool)
    requires SamePart(w, w', key.show) && RowStatus(hash, w, key, gap)
    ensures RowStatus(hash, w', key, gap) && (IsCached(w.table, key) <==> IsCached(w'.table, key))
  {
    assert key in w.table <==> key in w'.table;
    if key in w.table && w.table[key].data.filePath.Some? {
      var p := w.table[key].data.filePath.value;
      OwnPath(key, p);
      assert SameAt(w.files, w'.files, p);
    }
  }

  lemma GapsAreTidy(hash: Bytes -> Hash, w: World, gaps: set<Key>)
    requires AgreesBut(hash, w, gaps)
    ensures Tidy(w.table)
  {
    forall key: Key ensures RowPlaced(w.table, key) { assert RowStatus(hash, w, key, key in gaps); }
  }

  lemma RowThroughout(
    hash: Bytes -> Hash, jobs: ShowSlug -> Job, w0: World, turns: seq<Turn<Event>>, gaps: set<Key>, key: Key)
    requires AllOrderly(jobs, w0) && AgreesBut(hash, w0, gaps) && Storable(hash, jobs(key.show).up)
    ensures var s := After(hash, jobs, w0, turns);
            RowStatus(hash, s.world, key, key in StillCached(gaps, s.world.table) + AllCutting(s))
  {
    var s := After(hash, jobs, w0, turns);
    GapsAreTidy(hash, w0, gaps);
    var alone := EachStands(hash, jobs, w0, turns, key.show);
    var gap := key in StillCached(gaps, alone.table) + Cutting(key.show, s.at(key.show));
    StandingAgrees(hash, jobs(key.show), key.show, w0, s.at(key.show), alone, gaps);
    assert RowStatus(hash, alone, key, gap);
    StatusInside(hash, alone, s.world, key, gap);
  }

  /** At every moment of any overlapping syncs, hence also when the process dies there, the database
      and the disk agree but for the gaps found at the start and still there, and for at most one
      row of each show, whose file is deleted and whose mark is the next step. */
  lemma AgreesThroughoutOverlaps(
    hash: Bytes -> Hash, jobs: ShowSlug -> Job, w0: World, turns: seq<Turn<Event>>, gaps: set<Key>)
    requires AllOrderly(jobs, w0) && AgreesBut(hash, w0, gaps) && forall show :: Storable(hash, jobs(show).up)
    ensures var s := After(hash, jobs, w0, turns);
            AgreesBut(hash, s.world, StillCached(gaps, s.world.table) + AllCutting(s))
  {
    var s := After(hash, jobs, w0, turns);
    forall key: Key ensures RowStatus(hash, s.world, key, key in StillCached(gaps, s.world.table) + AllCutting(s)) {
      RowThroughout(hash, jobs, w0, turns, gaps, key);
    }
  }
}
