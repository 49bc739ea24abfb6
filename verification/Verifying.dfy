/** A verify checks and repairs its episodes concurrently: whatever the interleaving, it leaves
    the state, and reports the findings, of checking them one by one. */
module Verifying {
  import opened Wrappers
  import opened Domain
  import opened Episodes
  import opened Media
  import opened Download
  import opened World
  import opened Rows
  import opened Agreement
  import opened Repair
  import opened Transfers

  /** The checks and repairs under way: what each check found, which damaged episodes were
      reported so far, and the outcomes reported for them. */
  datatype Checks = Checks(
    busy: Busy, found: seq<Option<Option<FileProblem>>>, reported: seq<nat>, report: seq<VerifyOutcome>)

  datatype Check = Inspect(i: nat) | Repair(e: Event) | Close(i: nat)

  ghost predicate Formed(b: Batch, c: Checks) {
    |c.busy.phases| == |b.ids| == |c.found|
  }

  /** Whether check `i` found damage. */
  predicate Bad(c: Checks, i: nat) {
    i < |c.found| && c.found[i].Some? && c.found[i].value.Some?
  }

  /** What is reported of check `i`: the problem it found, and whether its repair left the row cached. */
  function OutcomeNow(b: Batch, fix: bool, c: Checks, i: nat): VerifyOutcome
    requires i < |b.ids| && Bad(c, i)
  {
    VerifyOutcome(b.ids[i], c.found[i].value.value, fix && IsCached(c.busy.world.table, KeyOf(b, i)))
  }

  /** One atomic step: a file is checked against the row as listed at the start; a damaged episode
      is downloaded, if that was asked for; a damaged episode that needs no more work is reported. */
  function CheckStep(b: Batch, fix: bool, c: Checks, e: Check): Checks
    requires |c.busy.phases| == |b.ids| == |c.found|
  {
    match e
    case Inspect(i) =>
      if i < |b.ids| && c.found[i].None? && KeyOf(b, i) in b.start.table
      then c.(found := c.found[i := Some(CheckFile(b.hash, c.busy.world.files, b.start.table[KeyOf(b, i)].data, b.up))])
      else c
    case Repair(e) => if fix && Bad(c, e.i) then c.(busy := Transfers.Step(b, c.busy, e)) else c
    case Close(i) =>
      if Bad(c, i) && i !in c.reported && (fix ==> c.busy.phases[i].Settled?)
      then c.(reported := c.reported + [i], report := c.report + [OutcomeNow(b, fix, c, i)]) else c
  }

  function CheckRun(b: Batch, fix: bool, events: seq<Check>): (c: Checks)
    ensures |c.busy.phases| == |b.ids| == |c.found|
  {
    if events == [] then Checks(First(b), seq(|b.ids|, _ => None), [], [])
    else CheckStep(b, fix, CheckRun(b, fix, events[..|events| - 1]), events[|events| - 1])
  }

  /** All cached rows of the show, at paths of their own. */
  ghost predicate AllListed(b: Batch) {
    && Distinct(b.ids) && AllCached(b.start.table, b.show, b.ids) && StemsApart(b.start.table)
    && forall id :: id in b.ids ==> RowPlaced(b.start.table, Key(b.show, id))
  }

  /** So it is for the cached rows of a show whose database and disk agree but for gaps. */
  lemma CachedAreListed(hash: Bytes -> Hash, w: World, show: ShowSlug, up: Upstream, gaps: set<Key>)
    requires AgreesBut(hash, w, gaps) && StemsApart(w.table)
    ensures AllListed(Batch(hash, w, show, CachedInOrder(w.table, show), up))
  {
    CachedMembers(w.table, show);
    forall id: EpisodeId ensures RowPlaced(w.table, Key(show, id)) {
      assert RowStatus(hash, w, Key(show, id), Key(show, id) in gaps);
    }
  }

  lemma ListedIsProper(b: Batch)
    requires AllListed(b)
    ensures Proper(b)
  {
    forall i, j | 0 <= i < j < |b.ids| ensures Stem(b.ids[i]) != Stem(b.ids[j]) {
      assert b.ids[i] in b.ids && b.ids[j] in b.ids && b.ids[i] != b.ids[j];
    }
  }

  // ----- every check finds the truth -----

  /** What a check of the state before would find. */
  function Truth(b: Batch, i: nat): Option<FileProblem>
    requires i < |b.ids| && KeyOf(b, i) in b.start.table
  {
    CheckFile(b.hash, b.start.files, b.start.table[KeyOf(b, i)].data, b.up)
  }

  lemma {:induction false} RepairsAreTransfers(b: Batch, fix: bool, events: seq<Check>) returns (own: seq<Event>)
    ensures CheckRun(b, fix, events).busy == Transfers.Run(b, own)
  {
    if events == [] {
      own := [];
    } else {
      var n := |events| - 1;
      var c := CheckRun(b, fix, events[..n]);
      own := RepairsAreTransfers(b, fix, events[..n]);
      if events[n].Repair? && fix && Bad(c, events[n].e.i) {
        assert (own + [events[n].e])[..|own|] == own;
        own := own + [events[n].e];
      }
    }
  }

  /** The file of an episode whose own repair has not begun is as it was. */
  lemma FileUntouched(b: Batch, s: Busy, i: nat, p: Path)
    requires AllListed(b) && |s.phases| == |b.ids| && i < |b.ids| && s.phases[i].Queued?
    requires b.start.table[KeyOf(b, i)].data.filePath == Some(p) && FileStands(b, s, p)
    ensures (p in s.world.files <==> p in b.start.files) && (p in s.world.files ==> s.world.files[p] == b.start.files[p])
  {
    ListedIsProper(b);
    assert b.ids[i] in b.ids;
    forall j: nat ensures !Placed(b, s, j, p) {
      if j < |b.ids| && j != i { assert b.ids[j] != b.ids[i]; }
      NotPlaced(b, s, KeyOf(b, i), j, p);
    }
  }

  lemma InspectionIsTrue(b: Batch, own: seq<Event>, i: nat)
    requires AllListed(b) && i < |b.ids| && Transfers.Run(b, own).phases[i].Queued?
    ensures KeyOf(b, i) in b.start.table
    ensures CheckFile(b.hash, Transfers.Run(b, own).world.files, b.start.table[KeyOf(b, i)].data, b.up) == Truth(b, i)
  {
    ListedIsProper(b);
    EveryStateStands(b, own);
    assert b.ids[i] in b.ids;
    var path := b.start.table[KeyOf(b, i)].data.filePath;
    if path.Some? { FileUntouched(b, Transfers.Run(b, own), i, path.value); }
  }

  /** What holds of check `i` at every moment. */
  ghost predicate CheckStands(b: Batch, fix: bool, c: Checks, i: nat)
    requires Formed(b, c) && i < |b.ids|
  {
    && KeyOf(b, i) in b.start.table
    && (c.found[i].Some? ==> c.found[i].value == Truth(b, i))
    && (!c.busy.phases[i].Queued? ==> fix && Bad(c, i))
    && (i in c.reported ==> Bad(c, i) && (fix ==> c.busy.phases[i].Settled?))
  }

  lemma RepairStepPhase(b: Batch, s: Busy, e: Event, i: nat)
    requires |s.phases| == |b.ids| && i < |b.ids|
    ensures e.i != i ==> Transfers.Step(b, s, e).phases[i] == s.phases[i]
    ensures s.phases[i].Settled? ==> Transfers.Step(b, s, e).phases[i].Settled?
  {
  }

  lemma CheckStepStands(b: Batch, fix: bool, events: seq<Check>, e: Check, i: nat)
    requires AllListed(b) && i < |b.ids| && CheckStands(b, fix, CheckRun(b, fix, events), i)
    ensures CheckStands(b, fix, CheckStep(b, fix, CheckRun(b, fix, events), e), i)
  {
    var c := CheckRun(b, fix, events);
    match e
    case Inspect(j) =>
      if j == i && c.found[i].None? {
        var own := RepairsAreTransfers(b, fix, events);
        InspectionIsTrue(b, own, i);
      }
    case Repair(t) => RepairStepPhase(b, c.busy, t, i);
    case Close(j) =>
  }

  lemma {:induction false} EveryCheckStands(b: Batch, fix: bool, events: seq<Check>, i: nat)
    requires AllListed(b) && i < |b.ids|
    ensures CheckStands(b, fix, CheckRun(b, fix, events), i)
  {
    if events == [] {
      assert b.ids[i] in b.ids;
    } else {
      var n := |events| - 1;
      EveryCheckStands(b, fix, events[..n], i);
      CheckStepStands(b, fix, events[..n], events[n], i);
    }
  }

  /** At every moment of a verify, hence also when the process dies there, the database and the disk
      agree but for the gaps there were at the start, less those whose repair has begun. */
  lemma ChecksAgreeThroughout(b: Batch, fix: bool, events: seq<Check>, gaps: set<Key>)
    requires AllListed(b) && AgreesBut(b.hash, b.start, gaps) && Storable(b.hash, b.up)
    ensures AgreesBut(b.hash, CheckRun(b, fix, events).busy.world, GapsLeft(b, CheckRun(b, fix, events).busy, gaps))
  {
    var own := RepairsAreTransfers(b, fix, events);
    ListedIsProper(b);
    AgreesThroughout(b, own, gaps);
  }

  predicate InRange(b: Batch, c: Checks) {
    forall k :: 0 <= k < |c.reported| ==> c.reported[k] < |b.ids|
  }

  lemma {:induction false} ReportedOnceEach(b: Batch, fix: bool, events: seq<Check>)
    ensures Distinct(CheckRun(b, fix, events).reported)
    ensures InRange(b, CheckRun(b, fix, events))
  {
    if events != [] { ReportedOnceEach(b, fix, events[..|events| - 1]); }
  }

  // ----- the end state -----

  /** Every episode was checked and every damaged one reported. */
  ghost predicate Complete(b: Batch, c: Checks) {
    Formed(b, c) && forall i :: 0 <= i < |b.ids| ==> c.found[i].Some? && (Bad(c, i) ==> i in c.reported)
  }

  /** The damaged episodes. */
  ghost function Broken(b: Batch): set<EpisodeId> {
    set id | id in b.ids && Damaged(b.hash, b.start, Key(b.show, id), b.up)
  }

  ghost function Repaired(b: Batch, fix: bool): set<EpisodeId> {
    if fix then Broken(b) else {}
  }

  lemma {:induction false} OnlyNothing(ids: seq<EpisodeId>)
    ensures Only(ids, {}) == []
  {
    if ids != [] { OnlyNothing(ids[..|ids| - 1]); }
  }

  lemma OnlyLast(ids: seq<EpisodeId>, s: set<EpisodeId>)
    requires ids != []
    ensures var n := |ids| - 1;
            Only(ids, s) == if ids[n] in s then Only(ids[..n], s) + [ids[n]] else Only(ids[..n], s)
  {
  }

  lemma DownloadsLast(hash: Bytes -> Hash, w: World, show: ShowSlug, ids: seq<EpisodeId>, id: EpisodeId, up: Upstream)
    ensures Downloads(hash, w, show, ids + [id], up) == DownloadOne(hash, Downloads(hash, w, show, ids, up), Key(show, id), up)
  {
    assert (ids + [id])[..|ids|] == ids;
  }

  /** Checking and repairing one by one downloads exactly the damaged ones. */
  lemma {:induction false} VerifiedIsDownloads(
    hash: Bytes -> Hash, w: World, show: ShowSlug, ids: seq<EpisodeId>, up: Upstream, broken: set<EpisodeId>)
    requires StemsApart(w.table) && Distinct(ids) && AllCached(w.table, show, ids)
    requires forall id :: id in ids ==> RowPlaced(w.table, Key(show, id))
    requires forall id :: id in ids ==> (id in broken <==> Damaged(hash, w, Key(show, id), up))
    ensures Verified(hash, w, show, ids, true, up) == Downloads(hash, w, show, Only(ids, broken), up)
  {
    if ids != [] {
      var n := |ids| - 1;
      assert ids == ids[..n] + [ids[n]];
      assert ids[n] in ids && forall id :: id in ids[..n] ==> id in ids;
      VerifiedIsDownloads(hash, w, show, ids[..n], up, broken);
      JudgedAsFound(hash, w, show, ids, true, up);
      OnlyLast(ids, broken);
      DownloadsLast(hash, w, show, Only(ids[..n], broken), ids[n], up);
    }
  }

  lemma OneByOne(b: Batch, fix: bool)
    requires AllListed(b)
    ensures Verified(b.hash, b.start, b.show, b.ids, fix, b.up)
            == Downloads(b.hash, b.start, b.show, Only(b.ids, Repaired(b, fix)), b.up)
  {
    if fix {
      VerifiedIsDownloads(b.hash, b.start, b.show, b.ids, b.up, Broken(b));
    } else {
      CheckingChangesNothing(b.hash, b.start, b.show, b.ids, b.up);
      OnlyNothing(b.ids);
    }
  }

  lemma RepairedList(b: Batch, fix: bool)
    requires AllListed(b)
    ensures var ids := Only(b.ids, Repaired(b, fix));
            && Distinct(ids) && DistinctStems(b.show, ids) && AllPending(b.start.table, b.show, ids)
            && forall id :: id in ids <==> id in b.ids && id in Repaired(b, fix)
  {
    var ids := Only(b.ids, Repaired(b, fix));
    OnlyMembers(b.ids, Repaired(b, fix));
    forall i, j | 0 <= i < j < |ids| ensures Stem(ids[i]) != Stem(ids[j]) {
      assert ids[i] in ids && ids[j] in ids && ids[i] != ids[j];
    }
  }

  /** In the end exactly the damaged episodes were repaired, if that was asked for. */
  lemma EndPhase(b: Batch, fix: bool, events: seq<Check>, i: nat)
    requires AllListed(b) && Complete(b, CheckRun(b, fix, events)) && i < |b.ids|
    ensures CheckRun(b, fix, events).busy.phases[i] == if b.ids[i] in Repaired(b, fix) then Settled else Queued
    ensures i in CheckRun(b, fix, events).reported <==> b.ids[i] in Broken(b)
  {
    EveryCheckStands(b, fix, events, i);
    assert b.ids[i] in b.ids;
  }

  lemma EndRow(b: Batch, fix: bool, events: seq<Check>, key: Key)
    requires AllListed(b) && Complete(b, CheckRun(b, fix, events))
    ensures var t := Downloads(b.hash, b.start, b.show, Only(b.ids, Repaired(b, fix)), b.up).table;
            var now := CheckRun(b, fix, events).busy.world.table;
            (key in now <==> key in t) && (key in t ==> now[key] == t[key])
  {
    var own := RepairsAreTransfers(b, fix, events);
    ListedIsProper(b);
    EveryStateStands(b, own);
    RepairedList(b, fix);
    DownloadRow(b.hash, b.start, b.show, Only(b.ids, Repaired(b, fix)), b.up, key);
    if InBatch(b, key) {
      var i :| 0 <= i < |b.ids| && b.ids[i] == key.id;
      EndPhase(b, fix, events, i);
      assert RowStands(b, Transfers.Run(b, own), i) && KeyOf(b, i) == key;
    }
  }

  lemma EndPlaced(b: Batch, fix: bool, events: seq<Check>, i: nat, p: Path)
    requires AllListed(b) && Complete(b, CheckRun(b, fix, events))
    ensures Placed(b, CheckRun(b, fix, events).busy, i, p)
            <==> i < |b.ids| && b.ids[i] in Repaired(b, fix) && Delivers(b.hash, KeyOf(b, i), b.up, p)
  {
    if i < |b.ids| { EndPhase(b, fix, events, i); }
  }

  lemma EndFile(b: Batch, fix: bool, events: seq<Check>, p: Path)
    requires AllListed(b) && Complete(b, CheckRun(b, fix, events))
    ensures var files := Downloads(b.hash, b.start, b.show, Only(b.ids, Repaired(b, fix)), b.up).files;
            var now := CheckRun(b, fix, events).busy.world.files;
            (p in now <==> p in files) && (p in files ==> now[p] == files[p])
  {
    var s, ids := CheckRun(b, fix, events).busy, Only(b.ids, Repaired(b, fix));
    var own := RepairsAreTransfers(b, fix, events);
    ListedIsProper(b);
    EveryStateStands(b, own);
    assert FileStands(b, s, p);
    RepairedList(b, fix);
    forall i: nat
      ensures Placed(b, s, i, p) <==> i < |b.ids| && b.ids[i] in Repaired(b, fix) && Delivers(b.hash, KeyOf(b, i), b.up, p)
    {
      EndPlaced(b, fix, events, i, p);
    }
    if i: nat :| Placed(b, s, i, p) {
      assert b.ids[i] in ids;
      DeliveredFile(b.hash, b.start, b.show, ids, b.up, b.ids[i], p);
    } else {
      forall id | id in ids ensures !Delivers(b.hash, Key(b.show, id), b.up, p) {
        var i :| 0 <= i < |b.ids| && b.ids[i] == id;
        assert !Placed(b, s, i, p);
      }
      UndeliveredFile(b.hash, b.start, b.show, ids, b.up, p);
    }
  }

  /** Whatever the interleaving of checks and repairs, a complete verify leaves the state that
      checking and repairing one by one leaves. */
  lemma AnyOrderVerifies(b: Batch, fix: bool, events: seq<Check>)
    requires AllListed(b) && Complete(b, CheckRun(b, fix, events))
    ensures CheckRun(b, fix, events).busy.world == Verified(b.hash, b.start, b.show, b.ids, fix, b.up)
  {
    var now := CheckRun(b, fix, events).busy.world;
    var w := Downloads(b.hash, b.start, b.show, Only(b.ids, Repaired(b, fix)), b.up);
    OneByOne(b, fix);
    forall key: Key ensures key in now.table <==> key in w.table ensures key in w.table ==> now.table[key] == w.table[key] {
      EndRow(b, fix, events, key);
    }
    forall p: Path ensures p in now.files <==> p in w.files ensures p in w.files ==> now.files[p] == w.files[p] {
      EndFile(b, fix, events, p);
    }
    assert now.table == w.table && now.files == w.files;
  }

  // ----- the report -----

  /** The outcome of a damaged episode, as it is reported once its repair, if any, is over. */
  function Judged(b: Batch, fix: bool, id: EpisodeId): (o: VerifyOutcome)
    ensures o.id == id
  {
    var key := Key(b.show, id);
    var problem := if key in b.start.table then CheckFile(b.hash, b.start.files, b.start.table[key].data, b.up) else None;
    VerifyOutcome(id, problem.GetOr(Missing), fix && Fetched(b.hash, key, b.up).Success?)
  }

  function AllJudged(b: Batch, fix: bool, ids: seq<EpisodeId>): (r: seq<VerifyOutcome>)
    ensures |r| == |ids| && forall k :: 0 <= k < |r| ==> r[k] == Judged(b, fix, ids[k])
  {
    seq(|ids|, k requires 0 <= k < |ids| => Judged(b, fix, ids[k]))
  }

  /** The episodes in the order they were reported. */
  function ReportedIds(b: Batch, c: Checks): (ids: seq<EpisodeId>)
    requires InRange(b, c)
    ensures |ids| == |c.reported| && forall k :: 0 <= k < |ids| ==> ids[k] == b.ids[c.reported[k]]
  {
    seq(|c.reported|, k requires 0 <= k < |c.reported| => b.ids[c.reported[k]])
  }

  /** A reported outcome is the one of checking and repairing that episode alone: the check found
      what was there at the start, and the repair succeeded exactly if the audio arrived. */
  lemma OutcomeIsJudged(b: Batch, fix: bool, events: seq<Check>, i: nat)
    requires AllListed(b) && i < |b.ids| && Bad(CheckRun(b, fix, events), i)
    requires fix ==> CheckRun(b, fix, events).busy.phases[i].Settled?
    ensures OutcomeNow(b, fix, CheckRun(b, fix, events), i) == Judged(b, fix, b.ids[i])
  {
    EveryCheckStands(b, fix, events, i);
    if fix {
      var own := RepairsAreTransfers(b, fix, events);
      ListedIsProper(b);
      EveryStateStands(b, own);
      assert RowStands(b, Transfers.Run(b, own), i);
    }
  }

  ghost predicate ReportFits(b: Batch, fix: bool, c: Checks) {
    InRange(b, c) && c.report == AllJudged(b, fix, ReportedIds(b, c))
  }

  lemma ReportGrows(b: Batch, fix: bool, c: Checks, c': Checks, i: nat)
    requires ReportFits(b, fix, c) && i < |b.ids|
    requires c'.reported == c.reported + [i] && c'.report == c.report + [Judged(b, fix, b.ids[i])]
    ensures ReportFits(b, fix, c')
  {
    assert ReportedIds(b, c') == ReportedIds(b, c) + [b.ids[i]];
    JudgedLast(b, fix, ReportedIds(b, c), b.ids[i]);
  }

  lemma ReportStays(b: Batch, fix: bool, c: Checks, c': Checks)
    requires ReportFits(b, fix, c) && c'.reported == c.reported && c'.report == c.report
    ensures ReportFits(b, fix, c')
  {
    assert ReportedIds(b, c') == ReportedIds(b, c);
  }

  lemma {:induction false} ReportIsJudged(b: Batch, fix: bool, events: seq<Check>)
    requires AllListed(b)
    ensures ReportFits(b, fix, CheckRun(b, fix, events))
  {
    if events != [] {
      var n := |events| - 1;
      var before, c, e := CheckRun(b, fix, events[..n]), CheckRun(b, fix, events), events[n];
      ReportIsJudged(b, fix, events[..n]);
      if c.reported == before.reported {
        ReportStays(b, fix, before, c);
      } else {
        OutcomeIsJudged(b, fix, events[..n], e.i);
        ReportGrows(b, fix, before, c, e.i);
      }
    }
  }

  lemma JudgedLast(b: Batch, fix: bool, ids: seq<EpisodeId>, id: EpisodeId)
    ensures AllJudged(b, fix, ids + [id]) == AllJudged(b, fix, ids) + [Judged(b, fix, id)]
  {
  }

  lemma {:induction false} FindingsAreJudged(b: Batch, fix: bool, ids: seq<EpisodeId>)
    requires forall id :: id in ids ==> Key(b.show, id) in b.start.table && id in b.ids
    ensures Findings(b.hash, b.start, b.show, ids, fix, b.up) == AllJudged(b, fix, Only(ids, Broken(b)))
  {
    if ids != [] {
      var n := |ids| - 1;
      assert ids == ids[..n] + [ids[n]] && ids[n] in ids;
      assert forall id :: id in ids[..n] ==> id in ids;
      FindingsAreJudged(b, fix, ids[..n]);
      OnlyLast(ids, Broken(b));
      JudgedLast(b, fix, Only(ids[..n], Broken(b)), ids[n]);
    }
  }

  lemma ReportedIdsAreBroken(b: Batch, fix: bool, events: seq<Check>)
    requires AllListed(b) && Complete(b, CheckRun(b, fix, events))
    ensures InRange(b, CheckRun(b, fix, events))
    ensures var ids := ReportedIds(b, CheckRun(b, fix, events));
            Distinct(ids) && forall id :: id in ids <==> id in b.ids && id in Broken(b)
  {
    var c := CheckRun(b, fix, events);
    ReportedOnceEach(b, fix, events);
    forall i | 0 <= i < |b.ids| ensures i in c.reported <==> b.ids[i] in Broken(b) { EndPhase(b, fix, events, i); }
    var ids := ReportedIds(b, c);
    forall k, l | 0 <= k < l < |ids| ensures ids[k] != ids[l] {
      assert c.reported[k] in c.reported && c.reported[l] in c.reported && c.reported[k] != c.reported[l];
    }
    forall id ensures id in ids <==> id in b.ids && id in Broken(b) {
      if id in ids {
        var k :| 0 <= k < |ids| && ids[k] == id;
        assert c.reported[k] in c.reported;
      }
      if id in b.ids && id in Broken(b) {
        var i :| 0 <= i < |b.ids| && b.ids[i] == id;
        var k :| 0 <= k < |c.reported| && c.reported[k] == i;
        assert ids[k] == id;
      }
    }
  }

  lemma JudgedMembers(b: Batch, fix: bool, ids: seq<EpisodeId>, o: VerifyOutcome)
    ensures o in AllJudged(b, fix, ids) <==> o.id in ids && o == Judged(b, fix, o.id)
    ensures Distinct(ids) ==> Distinct(AllJudged(b, fix, ids))
  {
    if o.id in ids && o == Judged(b, fix, o.id) {
      var k :| 0 <= k < |ids| && ids[k] == o.id;
      assert AllJudged(b, fix, ids)[k] == o;
    }
  }

  lemma SameJudgements(b: Batch, fix: bool, x: seq<EpisodeId>, y: seq<EpisodeId>)
    requires Distinct(x) && Distinct(y) && forall id :: id in x <==> id in y
    ensures multiset(AllJudged(b, fix, x)) == multiset(AllJudged(b, fix, y)) && |x| == |y|
  {
    forall o ensures o in AllJudged(b, fix, x) <==> o in AllJudged(b, fix, y) {
      JudgedMembers(b, fix, x, o);
      JudgedMembers(b, fix, y, o);
    }
    JudgedMembers(b, fix, x, Judged(b, fix, "1"));
    JudgedMembers(b, fix, y, Judged(b, fix, "1"));
    SameElements(AllJudged(b, fix, x), AllJudged(b, fix, y));
  }

  /** ... and reports, in the order of completion, exactly the outcomes that checking one by one
      reports in stored order. */
  lemma AnyOrderReports(b: Batch, fix: bool, events: seq<Check>)
    requires AllListed(b) && Complete(b, CheckRun(b, fix, events))
    ensures var report, problems := CheckRun(b, fix, events).report, Problems(b.hash, b.start, b.show, b.ids, fix, b.up);
            multiset(report) == multiset(problems) && |report| == |problems|
  {
    ReportedIdsAreBroken(b, fix, events);
    ReportIsJudged(b, fix, events);
    ProblemsAreTheFindings(b.hash, b.start, b.show, b.ids, fix, b.up);
    FindingsAreJudged(b, fix, b.ids);
    OnlyMembers(b.ids, Broken(b));
    SameJudgements(b, fix, ReportedIds(b, CheckRun(b, fix, events)), Only(b.ids, Broken(b)));
  }

  lemma {:induction false} DistinctMultiset<T>(s: seq<T>)
    requires Distinct(s)
    ensures forall x :: multiset(s)[x] == if x in s then 1 else 0
  {
    if s != [] {
      var n := |s| - 1;
      assert s == s[..n] + [s[n]];
      assert s[n] !in s[..n];
      DistinctMultiset(s[..n]);
    }
  }

  lemma SameElements<T>(a: seq<T>, b: seq<T>)
    requires Distinct(a) && Distinct(b) && forall x :: x in a <==> x in b
    ensures multiset(a) == multiset(b) && |a| == |b|
  {
    DistinctMultiset(a);
    DistinctMultiset(b);
    assert multiset(a) == multiset(b);
    assert |multiset(a)| == |a| && |multiset(b)| == |b|;
  }

  /** On a readable disk the episodes reported are exactly those whose file is missing or differs
      from its record. */
  lemma ReportsTheDamaged(b: Batch, fix: bool, events: seq<Check>, id: EpisodeId)
    requires AllListed(b) && Complete(b, CheckRun(b, fix, events)) && Readable(b.up) && id in b.ids
    ensures Key(b.show, id) in b.start.table
    ensures (exists o :: o in CheckRun(b, fix, events).report && o.id == id)
            <==> !Intact(b.hash, b.start.files, b.start.table[Key(b.show, id)].data)
  {
    var c := CheckRun(b, fix, events);
    ReportedIdsAreBroken(b, fix, events);
    ReportIsJudged(b, fix, events);
    forall o ensures o in c.report <==> o.id in ReportedIds(b, c) && o == Judged(b, fix, o.id) {
      JudgedMembers(b, fix, ReportedIds(b, c), o);
    }
    assert id in ReportedIds(b, c) ==> Judged(b, fix, id) in c.report;
    CheckIsExact(b.hash, b.start.files, b.start.table[Key(b.show, id)].data, b.up);
  }
}
