/** Verifies of several shows at once: each reports, and leaves its part of the world, as if alone. */
module Checkups {
  import opened Wrappers
  import opened Domain
  import opened Episodes
  import opened Download
  import opened World
  import opened Rows
  import opened Agreement
  import opened Shows
  import opened Syncing
  import Transfers
  import opened Boundaries
  import opened Verifying

  /** Where the verify of one show stands: not begun, or going through the cached rows it listed. */
  datatype Look =
    | Unread
    | Reading(records: Table, ids: seq<EpisodeId>, phases: seq<Transfers.Phase>, found: seq<Option<Option<FileProblem>>>,
              reported: seq<nat>, report: seq<VerifyOutcome>)

  datatype Peek = List | One(e: Check)

  /** The rows of one show. */
  function Own(t: Table, show: ShowSlug): Table {
    map key | key in t && key.show == show :: t[key]
  }

  predicate Sized(p: Look) {
    p.Reading? && |p.phases| == |p.ids| == |p.found|
  }

  function ChecksOf(p: Look, w: World): Checks
    requires p.Reading?
  {
    Checks(Transfers.Busy(w, p.phases), p.found, p.reported, p.report)
  }

  function BatchFor(hash: Bytes -> Hash, up: Upstream, show: ShowSlug, p: Look): Transfers.Batch
    requires p.Reading?
  {
    Transfers.Batch(hash, World(p.records, map[]), show, p.ids, up)
  }

  ghost function LookStep(hash: Bytes -> Hash, fix: bool, up: Upstream, show: ShowSlug, p: Look, w: World, e: Peek): (Look, World) {
    match e
    case List =>
      if p.Unread? then
        var ids := CachedInOrder(w.table, show);
        (Reading(Own(w.table, show), ids, Queue(|ids|), seq(|ids|, _ => None), [], []), w)
      else (p, w)
    case One(x) =>
      if Sized(p) then
        var c := CheckStep(BatchFor(hash, up, show, p), fix, ChecksOf(p, w), x);
        (Reading(p.records, p.ids, c.busy.phases, c.found, c.reported, c.report), c.busy.world)
      else (p, w)
  }

  /** The verifies of all shows. */
  ghost function Looks(hash: Bytes -> Hash, fix: bool, ups: ShowSlug -> Upstream): Program<Look, Peek> {
    (show: ShowSlug, p: Look, w: World, e: Peek) => LookStep(hash, fix, ups(show), show, p, w, e)
  }

  /** The paths of the listed rows are in their places. */
  ghost function TidyLook(): Fitness<Look> {
    (show: ShowSlug, p: Look) => p.Reading? ==> Tidy(p.records)
  }

  // ----- a verify keeps to its show -----

  lemma CheckFileSees(hash: Bytes -> Hash, f: Files, f': Files, c: Columns, up: Upstream)
    requires c.filePath.Some? ==> SameAt(f, f', c.filePath.value)
    ensures CheckFile(hash, f, c, up) == CheckFile(hash, f', c, up)
  {
  }

  lemma CheckStays(hash: Bytes -> Hash, fix: bool, up: Upstream, show: ShowSlug, p: Look, w: World, x: Check)
    requires Sized(p) && Tidy(w.table)
    ensures Stays(w, CheckStep(BatchFor(hash, up, show, p), fix, ChecksOf(p, w), x).busy.world, show)
  {
    NothingMoves(w, show);
    if x.Repair? && fix && Bad(ChecksOf(p, w), x.e.i) {
      TickStays(hash, up, show, p.ids, p.phases, w, x.e);
    }
  }

  ghost predicate SameChecks(c: Checks, c': Checks, show: ShowSlug) {
    && c.busy.phases == c'.busy.phases && c.found == c'.found && c.reported == c'.reported && c.report == c'.report
    && SamePart(c.busy.world, c'.busy.world, show)
  }

  lemma InspectSees(hash: Bytes -> Hash, fix: bool, up: Upstream, show: ShowSlug, p: Look, w: World, w': World, i: nat)
    requires Sized(p) && Tidy(p.records) && SamePart(w, w', show)
    ensures var b := BatchFor(hash, up, show, p);
            SameChecks(CheckStep(b, fix, ChecksOf(p, w), Inspect(i)), CheckStep(b, fix, ChecksOf(p, w'), Inspect(i)), show)
  {
    if i < |p.ids| {
      var key := Key(show, p.ids[i]);
      if key in p.records {
        assert RowPlaced(p.records, key);
        var c := p.records[key].data;
        if c.filePath.Some? {
          OwnPath(key, c.filePath.value);
          assert SameAt(w.files, w'.files, c.filePath.value);
        }
        CheckFileSees(hash, w.files, w'.files, c, up);
      }
    }
  }

  lemma RepairSees(hash: Bytes -> Hash, fix: bool, up: Upstream, show: ShowSlug, p: Look, w: World, w': World, e: Transfers.Event)
    requires Sized(p) && SamePart(w, w', show)
    ensures var b := BatchFor(hash, up, show, p);
            SameChecks(CheckStep(b, fix, ChecksOf(p, w), Repair(e)), CheckStep(b, fix, ChecksOf(p, w'), Repair(e)), show)
  {
    TickSees(hash, up, show, p.ids, p.phases, w, w', e);
  }

  lemma CloseSees(hash: Bytes -> Hash, fix: bool, up: Upstream, show: ShowSlug, p: Look, w: World, w': World, i: nat)
    requires Sized(p) && SamePart(w, w', show)
    ensures var b := BatchFor(hash, up, show, p);
            SameChecks(CheckStep(b, fix, ChecksOf(p, w), Close(i)), CheckStep(b, fix, ChecksOf(p, w'), Close(i)), show)
  {
    if i < |p.ids| {
      var key := Key(show, p.ids[i]);
      assert key in w.table <==> key in w'.table;
    }
  }

  lemma LookStays(hash: Bytes -> Hash, fix: bool, up: Upstream, show: ShowSlug, p: Look, w: World, e: Peek)
    requires Tidy(w.table) && (p.Reading? ==> Tidy(p.records))
    ensures var (p', w') := LookStep(hash, fix, up, show, p, w, e); (p'.Reading? ==> Tidy(p'.records)) && Stays(w, w', show)
  {
    NothingMoves(w, show);
    match e
    case List => forall key: Key ensures RowPlaced(Own(w.table, show), key) { assert RowPlaced(w.table, key); }
    case One(x) => if Sized(p) { CheckStays(hash, fix, up, show, p, w, x); }
  }

  lemma OwnInside(t: Table, t': Table, show: ShowSlug)
    requires SameRows(t, t', show)
    ensures Own(t, show) == Own(t', show)
  {
    forall key: Key ensures key in Own(t, show) <==> key in Own(t', show) {}
  }

  lemma ListSees(show: ShowSlug, w: World, w': World)
    requires SamePart(w, w', show)
    ensures CachedInOrder(w.table, show) == CachedInOrder(w'.table, show) && Own(w.table, show) == Own(w'.table, show)
  {
    CachedInside(w.table, w'.table, show);
    OwnInside(w.table, w'.table, show);
  }

  lemma LookSees(hash: Bytes -> Hash, fix: bool, up: Upstream, show: ShowSlug, p: Look, w: World, w': World, e: Peek)
    requires (p.Reading? ==> Tidy(p.records)) && SamePart(w, w', show)
    ensures LookStep(hash, fix, up, show, p, w, e).0 == LookStep(hash, fix, up, show, p, w', e).0
    ensures SamePart(LookStep(hash, fix, up, show, p, w, e).1, LookStep(hash, fix, up, show, p, w', e).1, show)
  {
    match e
    case List => ListSees(show, w, w');
    case One(x) =>
      if Sized(p) {
        match x
        case Inspect(i) => InspectSees(hash, fix, up, show, p, w, w', i);
        case Repair(t) => RepairSees(hash, fix, up, show, p, w, w', t);
        case Close(i) => CloseSees(hash, fix, up, show, p, w, w', i);
      }
  }

  lemma LooksAreLocal(hash: Bytes -> Hash, fix: bool, ups: ShowSlug -> Upstream)
    ensures Local(Looks(hash, fix, ups), TidyLook())
  {
    var step, fits := Looks(hash, fix, ups), TidyLook();
    forall show: ShowSlug, p: Look, w: World, e: Peek ensures StaysInside(step, fits, show, p, w, e) {
      if Tidy(w.table) && fits(show, p) { LookStays(hash, fix, ups(show), show, p, w, e); }
    }
    forall show: ShowSlug, p: Look, w: World, w': World, e: Peek ensures SeesInside(step, fits, show, p, w, w', e) {
      if fits(show, p) && SamePart(w, w', show) { LookSees(hash, fix, ups(show), show, p, w, w', e); }
    }
  }

  // ----- what a verify alone comes to -----

  ghost function Whole(hash: Bytes -> Hash, up: Upstream, show: ShowSlug, w0: World): Transfers.Batch {
    Transfers.Batch(hash, w0, show, CachedInOrder(w0.table, show), up)
  }

  ghost predicate Checked(b: Transfers.Batch, fix: bool, c: Checks) {
    exists events :: CheckRun(b, fix, events) == c
  }

  ghost predicate LookStands(hash: Bytes -> Hash, fix: bool, up: Upstream, show: ShowSlug, w0: World, p: Look, w: World) {
    if p.Unread? then w == w0
    else
      && p.records == Own(w0.table, show) && p.ids == CachedInOrder(w0.table, show)
      && Checked(Whole(hash, up, show, w0), fix, ChecksOf(p, w))
  }

  /** The listed rows are all a check reads of the database as it was. */
  lemma OwnRowsSuffice(hash: Bytes -> Hash, fix: bool, up: Upstream, show: ShowSlug, w0: World, p: Look, w: World, x: Check)
    requires Sized(p) && p.records == Own(w0.table, show) && p.ids == CachedInOrder(w0.table, show)
    ensures CheckStep(BatchFor(hash, up, show, p), fix, ChecksOf(p, w), x) == CheckStep(Whole(hash, up, show, w0), fix, ChecksOf(p, w), x)
  {
    match x
    case Inspect(i) => if i < |p.ids| { assert Key(show, p.ids[i]) in p.records <==> Key(show, p.ids[i]) in w0.table; }
    case Repair(_) =>
    case Close(_) =>
  }

  lemma CheckedOn(b: Transfers.Batch, fix: bool, c: Checks, x: Check)
    requires Checked(b, fix, c)
    ensures |c.busy.phases| == |b.ids| == |c.found| && Checked(b, fix, CheckStep(b, fix, c, x))
  {
    var events :| CheckRun(b, fix, events) == c;
    assert (events + [x])[..|events|] == events;
    assert CheckRun(b, fix, events + [x]) == CheckStep(b, fix, c, x);
  }

  lemma LookStepStands(hash: Bytes -> Hash, fix: bool, up: Upstream, show: ShowSlug, w0: World, p: Look, w: World, e: Peek)
    requires LookStands(hash, fix, up, show, w0, p, w)
    ensures var (p', w') := LookStep(hash, fix, up, show, p, w, e); LookStands(hash, fix, up, show, w0, p', w')
  {
    var b := Whole(hash, up, show, w0);
    match e
    case List =>
      if p.Unread? {
        var c := ChecksOf(LookStep(hash, fix, up, show, p, w, e).0, w);
        assert Transfers.First(b) == Transfers.Busy(w, Queue(|b.ids|));
        assert CheckRun(b, fix, []) == c;
      }
    case One(x) =>
      if Sized(p) {
        OwnRowsSuffice(hash, fix, up, show, w0, p, w, x);
        CheckedOn(b, fix, ChecksOf(p, w), x);
      }
  }

  // ----- several shows -----

  ghost function Opened(w0: World): System<Look> {
    System(w0, show => Unread)
  }

  ghost function Looked(hash: Bytes -> Hash, fix: bool, ups: ShowSlug -> Upstream, w0: World, turns: seq<Turn<Peek>>): System<Look> {
    Go(Looks(hash, fix, ups), Opened(w0), turns)
  }

  lemma {:induction false} LookAlone(
    hash: Bytes -> Hash, fix: bool, ups: ShowSlug -> Upstream, w0: World, turns: seq<Turn<Peek>>, show: ShowSlug)
    requires forall i :: 0 <= i < |turns| ==> turns[i].show == show
    ensures var s := Looked(hash, fix, ups, w0, turns); LookStands(hash, fix, ups(show), show, w0, s.at(show), s.world)
  {
    if turns != [] {
      var n := |turns| - 1;
      var s := Looked(hash, fix, ups, w0, turns[..n]);
      LookAlone(hash, fix, ups, w0, turns[..n], show);
      LookStepStands(hash, fix, ups(show), show, w0, s.at(show), s.world, turns[n].e);
    }
  }

  /** Every cached row was checked and every damaged one reported. */
  ghost predicate Finished(p: Look) {
    Sized(p) && forall i :: 0 <= i < |p.ids| ==>
      p.found[i].Some? && (p.found[i].value.Some? ==> i in p.reported)
  }

  /** However the verifies of several shows interleave, each that is through has reported what it
      would have reported alone, and left its part of the world as it would have left it. */
  lemma OverlappingVerifies(
    hash: Bytes -> Hash, fix: bool, ups: ShowSlug -> Upstream, w0: World, turns: seq<Turn<Peek>>, show: ShowSlug)
    requires Tidy(w0.table) && StemsApart(w0.table) && Finished(Looked(hash, fix, ups, w0, turns).at(show))
    ensures var s, ids := Looked(hash, fix, ups, w0, turns), CachedInOrder(w0.table, show);
            && SamePart(Verified(hash, w0, show, ids, fix, ups(show)), s.world, show)
            && multiset(s.at(show).report) == multiset(Problems(hash, w0, show, ids, fix, ups(show)))
  {
    var s, alone := Looked(hash, fix, ups, w0, turns), Looked(hash, fix, ups, w0, Of(turns, show));
    LooksAreLocal(hash, fix, ups);
    EachShowAlone(Looks(hash, fix, ups), TidyLook(), Opened(w0), turns, show);
    OfOne(turns, show);
    LookAlone(hash, fix, ups, w0, Of(turns, show), show);
    FinishedAlone(hash, fix, ups(show), show, w0, s.at(show), alone.world);
  }

  lemma FinishedAlone(hash: Bytes -> Hash, fix: bool, up: Upstream, show: ShowSlug, w0: World, p: Look, w: World)
    requires Tidy(w0.table) && StemsApart(w0.table) && Finished(p) && LookStands(hash, fix, up, show, w0, p, w)
    ensures w == Verified(hash, w0, show, CachedInOrder(w0.table, show), fix, up)
    ensures multiset(p.report) == multiset(Problems(hash, w0, show, CachedInOrder(w0.table, show), fix, up))
  {
    var b := Whole(hash, up, show, w0);
    var events :| CheckRun(b, fix, events) == ChecksOf(p, w);
    CachedMembers(w0.table, show);
    assert AllListed(b) by {
      forall id: EpisodeId ensures RowPlaced(w0.table, Key(show, id)) {}
    }
    AnyOrderVerifies(b, fix, events);
    AnyOrderReports(b, fix, events);
  }
}
