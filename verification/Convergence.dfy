/** Repeated syncs settle: nothing is fetched only to be pruned, and once sizes are known a
    sync reaches a state that no later sync changes. */
module Convergence {
  import opened Wrappers
  import opened Domain
  import opened Retention
  import opened Episodes
  import opened Download
  import opened World
  import opened Rows

  // ----- selecting by id -----

  lemma {:induction false} OnlyAppend(a: seq<EpisodeId>, b: seq<EpisodeId>, s: set<EpisodeId>)
    ensures Only(a + b, s) == Only(a, s) + Only(b, s)
  {
    if b == [] {
      assert a + b == a;
    } else {
      var n := |b| - 1;
      assert (a + b)[..|a + b| - 1] == a + b[..n];
      OnlyAppend(a, b[..n], s);
    }
  }

  lemma {:induction false} OnlyTwice(ids: seq<EpisodeId>, s: set<EpisodeId>, s': set<EpisodeId>)
    requires s' <= s
    ensures Only(Only(ids, s), s') == Only(ids, s')
  {
    if ids != [] {
      var n := |ids| - 1;
      OnlyTwice(ids[..n], s, s');
      var r := Only(ids[..n], s);
      if ids[n] in s {
        assert (r + [ids[n]])[..|r|] == r;
      } else {
        assert Only(ids, s) == r;
      }
    }
  }

  lemma {:induction false} OnlyLength(ids: seq<EpisodeId>, s: set<EpisodeId>)
    ensures |Only(ids, s)| <= |ids|
  {
    if ids != [] { OnlyLength(ids[..|ids| - 1], s); }
  }

  /** Distinct ids: the entries a mask picked are found again by asking for exactly them. */
  lemma {:induction false} SelectedAgain(ids: seq<EpisodeId>, mask: seq<bool>, s: set<EpisodeId>)
    requires |ids| == |mask| && Distinct(ids)
    requires forall id :: id in s <==> id in Select(ids, mask)
    ensures Only(ids, s) == Select(ids, mask)
  {
    OnlyIsSelect(ids, s);
    forall i | 0 <= i < |ids| ensures InSet(ids, s)[i] == mask[i] {
      if mask[i] {
        SelectSelects(ids, mask, i);
      } else {
        SelectSelects(ids, Not(mask), i);
        SelectMembers(ids, mask, ids[i]);
      }
    }
    assert InSet(ids, s) == mask;
  }

  lemma CandidatesAppend(t: Table, show: ShowSlug, a: seq<EpisodeId>, b: seq<EpisodeId>)
    ensures Candidates(t, show, a + b) == Candidates(t, show, a) + Candidates(t, show, b)
  {
  }

  lemma CandidatesOnly(t: Table, show: ShowSlug, ids: seq<EpisodeId>, s: set<EpisodeId>)
    ensures Candidates(t, show, Only(ids, s)) == Select(Candidates(t, show, ids), InSet(ids, s))
  {
    OnlyIsSelect(ids, s);
    CandidatesSelect(t, show, ids, InSet(ids, s));
  }

  lemma {:induction false} CandidatesSelect(t: Table, show: ShowSlug, ids: seq<EpisodeId>, mask: seq<bool>)
    requires |ids| == |mask|
    ensures Candidates(t, show, Select(ids, mask)) == Select(Candidates(t, show, ids), mask)
  {
    if ids != [] {
      var n := |ids| - 1;
      CandidatesSelect(t, show, ids[..n], mask[..n]);
      assert Candidates(t, show, ids)[..n] == Candidates(t, show, ids[..n]);
      CandidatesAppend(t, show, Select(ids[..n], mask[..n]), [ids[n]]);
    }
  }

  /** The kept candidates of a list of distinct ids, as ids. */
  lemma KeptIds(policy: Policy, cs: seq<Candidate>)
    ensures Ids(Kept(policy, cs)) == Select(Ids(cs), Choice(policy, cs))
    ensures forall id :: id in Ids(Kept(policy, cs)) ==> id in Ids(cs)
  {
    SelectIds(cs, Choice(policy, cs));
    forall id | id in Ids(Kept(policy, cs)) ensures id in Ids(cs) {
      SelectMembers(Ids(cs), Choice(policy, cs), id);
    }
  }

  // ----- the window and the stored order -----

  /** The window is the newest part of the stored order. */
  ghost predicate WindowIsPrefix(t: Table, show: ShowSlug, window: seq<EpisodeId>) {
    window <= Ordered(t, show)
  }

  lemma WindowRows(t: Table, show: ShowSlug, window: seq<EpisodeId>)
    requires WindowIsPrefix(t, show, window)
    ensures Distinct(window)
    ensures forall id :: id in window ==> Key(show, id) in t
  {
    OrderedRows(t, show);
    forall id | id in window ensures id in Ordered(t, show) {
      var i :| 0 <= i < |window| && window[i] == id;
      assert Ordered(t, show)[i] == id;
    }
  }

  lemma DownloadsOrder(hash: Bytes -> Hash, w: World, show: ShowSlug, ids: seq<EpisodeId>, up: Upstream)
    requires Distinct(ids) && AllPending(w.table, show, ids)
    ensures Ordered(Downloads(hash, w, show, ids, up).table, show) == Ordered(w.table, show)
  {
    var t' := Downloads(hash, w, show, ids, up).table;
    forall id: EpisodeId
      ensures Key(show, id) in w.table <==> Key(show, id) in t'
      ensures Key(show, id) in w.table ==> w.table[Key(show, id)].data.publishedAt == t'[Key(show, id)].data.publishedAt
    {
      DownloadRow(hash, w, show, ids, up, Key(show, id));
    }
    OrderedFrame(w.table, t', show);
  }

  // ----- never fetch only to prune -----

  /** An episode among the `n` newest rows is never pruned by a count limit of `n`. */
  lemma NewestAreKept(t: Table, show: ShowSlug, n: nat, newest: seq<EpisodeId>, id: EpisodeId)
    requires newest <= Ordered(t, show) && |newest| <= n && id in newest
    ensures id !in PrunePlan(t, show, Policy(Some(n), None))
  {
    PlanMembers(t, show, Policy(Some(n), None));
    if IsCached(t, Key(show, id)) {
      OrderedRows(t, show);
      NewestCached(t, show, n, newest, id);
      CountOnlyKeepsNewest(n, CachedCandidates(t, show));
    }
  }

  lemma NewestCached(t: Table, show: ShowSlug, n: nat, newest: seq<EpisodeId>, id: EpisodeId)
    requires newest <= Ordered(t, show) && |newest| <= n
    requires id in newest && id in CachedIds(t, show)
    ensures id in Ids(Take(CachedCandidates(t, show), n))
  {
    var ids, cached := Ordered(t, show), CachedIds(t, show);
    assert ids == newest + ids[|newest|..];
    OnlyAppend(newest, ids[|newest|..], cached);
    OnlyLength(newest, cached);
    OnlyMembers(newest, cached);
    var first := Only(newest, cached);
    var i :| 0 <= i < |first| && first[i] == id;
    assert Ids(Take(CachedCandidates(t, show), n))[i] == id;
  }

  /** With a count limit only, a sync wants the newest of its window. */
  lemma CountWantsNewest(t: Table, show: ShowSlug, n: nat, window: seq<EpisodeId>, id: EpisodeId)
    requires id in Wanted(t, show, Policy(Some(n), None), window)
    ensures id in Take(window, n)
  {
    CountOnlyKeepsNewest(n, Candidates(t, show, window));
    assert Ids(Take(Candidates(t, show, window), n)) == Take(window, n);
  }

  /** With a count limit only, a prefix window and any outcome of the downloads: no episode a
      sync downloads is pruned by that same sync. */
  lemma NeverFetchToPrune(
    hash: Bytes -> Hash, w: World, show: ShowSlug, n: nat, window: seq<EpisodeId>, up: Upstream, id: EpisodeId)
    requires WindowIsPrefix(w.table, show, window)
    requires id in Pending(w.table, show, Policy(Some(n), None), window)
    ensures var policy := Policy(Some(n), None);
            var w' := Downloads(hash, w, show, Pending(w.table, show, policy, window), up);
            id !in PrunePlan(w'.table, show, policy)
  {
    var policy := Policy(Some(n), None);
    var pending := Pending(w.table, show, policy, window);
    WindowRows(w.table, show, window);
    PendingMembers(w.table, show, policy, window);
    DownloadsOrder(hash, w, show, pending, up);
    CountWantsNewest(w.table, show, n, window, id);
    NewestAreKept(Downloads(hash, w, show, pending, up).table, show, n, Take(window, n), id);
  }

  // ----- the settled state -----

  /** A state a sync over this window leaves alone. */
  ghost predicate Quiet(t: Table, show: ShowSlug, policy: Policy, window: seq<EpisodeId>) {
    Pending(t, show, policy, window) == [] && PrunePlan(t, show, policy) == []
  }

  lemma QuietSyncIsNoop(
    hash: Bytes -> Hash, w: World, show: ShowSlug, policy: Policy, window: seq<EpisodeId>, up: Upstream)
    requires Quiet(w.table, show, policy, window)
    ensures Settle(hash, w, show, policy, window, up) == w
    ensures SettleDownloaded(hash, w, show, policy, window, up) == 0
    ensures SettleFreed(hash, w, show, policy, window, up) == Tally(0, 0)
  {
  }

  /** The outside world cooperates: all audio of the window arrives, with the size `size`, and
      every file can be deleted. */
  ghost predicate Cooperates(
    hash: Bytes -> Hash, show: ShowSlug, window: seq<EpisodeId>, size: EpisodeId -> nat, up: Upstream)
  {
    && (forall id :: id in window ==>
          var got := Fetched(hash, Key(show, id), up);
          got.Success? && Clamp(got.value.file.bytes) == size(id))
    && forall p: Path :: !up.refuses(p)
  }

  /** What repeated syncs keep: the window is a prefix of the stored order, no row of the show
      is left downloading, cached rows have their size recorded, and recorded sizes are right. */
  ghost predicate Steady(t: Table, show: ShowSlug, window: seq<EpisodeId>, size: EpisodeId -> nat) {
    && WindowIsPrefix(t, show, window)
    && (forall id :: id in window ==>
          Key(show, id) in t && (t[Key(show, id)].data.bytes.Some? ==> t[Key(show, id)].data.bytes.value == size(id)))
    && (forall id: EpisodeId :: Key(show, id) in t ==> !t[Key(show, id)].state.Downloading?)
    && (forall id: EpisodeId :: IsCached(t, Key(show, id)) ==> t[Key(show, id)].data.bytes.Some?)
  }

  ghost predicate SizeKnown(t: Table, show: ShowSlug, id: EpisodeId) {
    Key(show, id) in t && t[Key(show, id)].data.bytes.Some?
  }

  ghost function Unknown(t: Table, show: ShowSlug, window: seq<EpisodeId>): set<EpisodeId> {
    set id | id in window && !SizeKnown(t, show, id)
  }

  // ----- one sync, row by row -----

  /** The table between the downloads and the pruning. */
  ghost function Fetching(
    hash: Bytes -> Hash, w: World, show: ShowSlug, policy: Policy, window: seq<EpisodeId>, up: Upstream): World
  {
    Downloads(hash, w, show, Pending(w.table, show, policy, window), up)
  }

  lemma FetchedRow(
    hash: Bytes -> Hash, w: World, show: ShowSlug, policy: Policy, window: seq<EpisodeId>, size: EpisodeId -> nat,
    up: Upstream, id: EpisodeId)
    requires Steady(w.table, show, window, size) && Cooperates(hash, show, window, size, up)
    ensures var key, t, t' := Key(show, id), w.table, Fetching(hash, w, show, policy, window, up).table;
            && (key in t' <==> key in t)
            && (key in t ==> t'[key].data.publishedAt == t[key].data.publishedAt && !t'[key].state.Downloading?)
            && (IsCached(t', key) <==> IsCached(t, key) || id in Wanted(t, show, policy, window))
            && (IsCached(t', key) ==> SizeKnown(t', show, id))
            && (SizeKnown(t, show, id) ==> SizeKnown(t', show, id))
            && (id in Wanted(t, show, policy, window) ==> SizeKnown(t', show, id))
            && (id in window && SizeKnown(t', show, id) ==> t'[key].data.bytes.value == size(id))
            && (SizeKnown(t', show, id) && !SizeKnown(t, show, id) ==> id in Wanted(t, show, policy, window))
  {
    var key, pending := Key(show, id), Pending(w.table, show, policy, window);
    WindowRows(w.table, show, window);
    PendingMembers(w.table, show, policy, window);
    DownloadRow(hash, w, show, pending, up, key);
    WantedInWindow(w.table, show, policy, window);
    if id in pending { assert id in window; }
  }

  lemma WantedInWindow(t: Table, show: ShowSlug, policy: Policy, window: seq<EpisodeId>)
    ensures forall id :: id in Wanted(t, show, policy, window) <==> id in Ids(Kept(policy, Candidates(t, show, window)))
    ensures forall id :: id in Wanted(t, show, policy, window) ==> id in window
  {
    KeptIds(policy, Candidates(t, show, window));
    assert Ids(Candidates(t, show, window)) == window;
  }

  lemma FetchingOrder(
    hash: Bytes -> Hash, w: World, show: ShowSlug, policy: Policy, window: seq<EpisodeId>, up: Upstream)
    requires WindowIsPrefix(w.table, show, window)
    ensures Ordered(Fetching(hash, w, show, policy, window, up).table, show) == Ordered(w.table, show)
  {
    WindowRows(w.table, show, window);
    PendingMembers(w.table, show, policy, window);
    DownloadsOrder(hash, w, show, Pending(w.table, show, policy, window), up);
  }

  lemma SettledRow(
    hash: Bytes -> Hash, w: World, show: ShowSlug, policy: Policy, window: seq<EpisodeId>, up: Upstream, id: EpisodeId)
    requires forall p: Path :: !up.refuses(p)
    ensures var key := Key(show, id);
            var t, t' := Fetching(hash, w, show, policy, window, up).table, Settle(hash, w, show, policy, window, up).table;
            && (key in t' <==> key in t)
            && (key in t ==> t'[key].data.publishedAt == t[key].data.publishedAt && t'[key].data.bytes == t[key].data.bytes
                             && (t[key].state.Downloading? <==> t'[key].state.Downloading?))
            && (IsCached(t', key) <==> IsCached(t, key) && id in Ids(Kept(policy, CachedCandidates(t, show))))
  {
    var w' := Fetching(hash, w, show, policy, window, up);
    PlanMembers(w'.table, show, policy);
    PruneRow(w', show, PrunePlan(w'.table, show, policy), up, Key(show, id));
    CachedMembers(w'.table, show);
    KeptIds(policy, CachedCandidates(w'.table, show));
  }

  lemma SettleOrder(
    hash: Bytes -> Hash, w: World, show: ShowSlug, policy: Policy, window: seq<EpisodeId>, up: Upstream)
    requires WindowIsPrefix(w.table, show, window) && forall p: Path :: !up.refuses(p)
    ensures Ordered(Settle(hash, w, show, policy, window, up).table, show) == Ordered(w.table, show)
  {
    FetchingOrder(hash, w, show, policy, window, up);
    var t, t' := Fetching(hash, w, show, policy, window, up).table, Settle(hash, w, show, policy, window, up).table;
    forall id: EpisodeId
      ensures Key(show, id) in t <==> Key(show, id) in t'
      ensures Key(show, id) in t ==> t[Key(show, id)].data.publishedAt == t'[Key(show, id)].data.publishedAt
    {
      SettledRow(hash, w, show, policy, window, up, id);
    }
    OrderedFrame(t, t', show);
  }

  /** A cooperative sync keeps the steady state, and forgets no size. */
  lemma SettleKeepsSteady(
    hash: Bytes -> Hash, w: World, show: ShowSlug, policy: Policy, window: seq<EpisodeId>, size: EpisodeId -> nat, up: Upstream)
    requires Steady(w.table, show, window, size) && Cooperates(hash, show, window, size, up)
    ensures Steady(Settle(hash, w, show, policy, window, up).table, show, window, size)
    ensures Unknown(Settle(hash, w, show, policy, window, up).table, show, window)
            == Unknown(w.table, show, window) - Wanted(w.table, show, policy, window)
  {
    var t' := Settle(hash, w, show, policy, window, up).table;
    SettleOrder(hash, w, show, policy, window, up);
    forall id: EpisodeId
      ensures Key(show, id) in w.table ==> Key(show, id) in t'
      ensures id in window && SizeKnown(t', show, id) ==> t'[Key(show, id)].data.bytes.value == size(id)
      ensures Key(show, id) in t' ==> !t'[Key(show, id)].state.Downloading?
      ensures IsCached(t', Key(show, id)) ==> SizeKnown(t', show, id)
      ensures SizeKnown(t', show, id) <==> SizeKnown(w.table, show, id) || id in Wanted(w.table, show, policy, window)
    {
      FetchedRow(hash, w, show, policy, window, size, up, id);
      SettledRow(hash, w, show, policy, window, up, id);
    }
  }

  // ----- a sync that wants only known sizes -----

  /** The policy wants nothing of unknown size. */
  ghost predicate WantsKnown(t: Table, show: ShowSlug, policy: Policy, window: seq<EpisodeId>) {
    forall id :: id in Wanted(t, show, policy, window) ==> SizeKnown(t, show, id)
  }

  lemma SizesStay(
    hash: Bytes -> Hash, w: World, show: ShowSlug, policy: Policy, window: seq<EpisodeId>, size: EpisodeId -> nat, up: Upstream)
    requires Steady(w.table, show, window, size) && Cooperates(hash, show, window, size, up)
    requires WantsKnown(w.table, show, policy, window)
    ensures Candidates(Fetching(hash, w, show, policy, window, up).table, show, window) == Candidates(w.table, show, window)
    ensures Candidates(Settle(hash, w, show, policy, window, up).table, show, window) == Candidates(w.table, show, window)
  {
    forall i | 0 <= i < |window|
      ensures SizeOf(Fetching(hash, w, show, policy, window, up).table, Key(show, window[i])) == SizeOf(w.table, Key(show, window[i]))
      ensures SizeOf(Settle(hash, w, show, policy, window, up).table, Key(show, window[i])) == SizeOf(w.table, Key(show, window[i]))
    {
      assert window[i] in window;
      FetchedRow(hash, w, show, policy, window, size, up, window[i]);
      SettledRow(hash, w, show, policy, window, up, window[i]);
    }
  }

  /** Planning by real sizes over the cached rows keeps, within the window, exactly what was
      planned by recorded sizes before the downloads. */
  lemma PlanHolds(
    hash: Bytes -> Hash, w: World, show: ShowSlug, policy: Policy, window: seq<EpisodeId>, size: EpisodeId -> nat,
    up: Upstream, id: EpisodeId)
    requires Steady(w.table, show, window, size) && Cooperates(hash, show, window, size, up)
    requires WantsKnown(w.table, show, policy, window)
    requires id in window
    ensures var t := Fetching(hash, w, show, policy, window, up).table;
            id in Ids(Kept(policy, CachedCandidates(t, show))) <==> id in Wanted(w.table, show, policy, window)
  {
    var t := Fetching(hash, w, show, policy, window, up).table;
    FetchingOrder(hash, w, show, policy, window, up);
    WantedInWindow(w.table, show, policy, window);
    WindowPlan(hash, w, show, policy, window, size, up);
    WindowDecides(t, show, policy, window, id);
  }

  /** Rows beyond a prefix of the stored order do not influence what is kept within it. */
  lemma WindowDecides(t: Table, show: ShowSlug, policy: Policy, window: seq<EpisodeId>, id: EpisodeId)
    requires WindowIsPrefix(t, show, window) && id in window
    ensures id in Ids(Kept(policy, CachedCandidates(t, show)))
            <==> id in Ids(Kept(policy, Candidates(t, show, Only(window, CachedIds(t, show)))))
  {
    var cached, order := CachedIds(t, show), Ordered(t, show);
    OrderedRows(t, show);
    var rest := order[|window|..];
    assert order == window + rest;
    OnlyAppend(window, rest, cached);
    var newer, older := Candidates(t, show, Only(window, cached)), Candidates(t, show, Only(rest, cached));
    CandidatesAppend(t, show, Only(window, cached), Only(rest, cached));
    assert CachedCandidates(t, show) == newer + older;
    KeptOfPrefix(policy, newer, older);
    OnlyMembers(rest, cached);
    SplitsApart(window, rest, id);
    assert id !in Ids(older);
    IdAdded(Kept(policy, newer), Kept(policy, newer + older), older, id);
  }

  lemma IdAdded(k: seq<Candidate>, all: seq<Candidate>, older: seq<Candidate>, id: EpisodeId)
    requires OlderAdded(k, all, older) && id !in Ids(older)
    ensures id in Ids(all) <==> id in Ids(k)
  {
    if id in Ids(k) {
      var i :| 0 <= i < |k| && Ids(k)[i] == id;
      assert Ids(all)[i] == id;
    }
    forall i | |k| <= i < |all| ensures all[i].id in Ids(older) {
      var j :| 0 <= j < |older| && older[j] == all[i];
      assert Ids(older)[j] == all[i].id;
    }
    if id in Ids(all) {
      var i :| 0 <= i < |all| && Ids(all)[i] == id;
      assert Ids(k)[i] == id;
    }
  }

  lemma SplitsApart(a: seq<EpisodeId>, b: seq<EpisodeId>, id: EpisodeId)
    requires Distinct(a + b) && id in a
    ensures id !in b
  {
    var i :| 0 <= i < |a| && a[i] == id;
    forall j | 0 <= j < |b| ensures b[j] != id {
      assert (a + b)[i] != (a + b)[|a| + j];
    }
  }

  /** Among the window's cached rows the policy keeps what it wanted of the whole window. */
  lemma WindowPlan(
    hash: Bytes -> Hash, w: World, show: ShowSlug, policy: Policy, window: seq<EpisodeId>, size: EpisodeId -> nat, up: Upstream)
    requires Steady(w.table, show, window, size) && Cooperates(hash, show, window, size, up)
    requires WantsKnown(w.table, show, policy, window)
    ensures var t := Fetching(hash, w, show, policy, window, up).table;
            Kept(policy, Candidates(t, show, Only(window, CachedIds(t, show)))) == Kept(policy, Candidates(w.table, show, window))
  {
    var t := Fetching(hash, w, show, policy, window, up).table;
    var cs, cached := Candidates(w.table, show, window), CachedIds(t, show);
    SizesStay(hash, w, show, policy, window, size, up);
    CandidatesOnly(t, show, window, cached);
    WantedInWindow(w.table, show, policy, window);
    KeptIds(policy, cs);
    assert Ids(cs) == window;
    OrderedRows(t, show);
    forall i | 0 <= i < |cs| && Choice(policy, cs)[i] ensures InSet(window, cached)[i] {
      SelectSelects(window, Choice(policy, cs), i);
      FetchedRow(hash, w, show, policy, window, size, up, window[i]);
    }
    DoomedAreIrrelevant(policy, cs, InSet(window, cached));
  }

  /** A cooperative sync that wants only known sizes keeps exactly the planned set of the
      window, and leaves a state that every later sync over the window leaves alone. */
  lemma KnownSizesSettle(
    hash: Bytes -> Hash, w: World, show: ShowSlug, policy: Policy, window: seq<EpisodeId>, size: EpisodeId -> nat, up: Upstream)
    requires Steady(w.table, show, window, size) && Cooperates(hash, show, window, size, up)
    requires WantsKnown(w.table, show, policy, window)
    ensures var t := Settle(hash, w, show, policy, window, up).table;
            && (forall id :: id in window ==> (IsCached(t, Key(show, id)) <==> id in Wanted(w.table, show, policy, window)))
            && Quiet(t, show, policy, window)
  {
    var t, t' := Fetching(hash, w, show, policy, window, up).table, Settle(hash, w, show, policy, window, up).table;
    forall id | id in window ensures IsCached(t', Key(show, id)) <==> id in Wanted(w.table, show, policy, window) {
      PlanHolds(hash, w, show, policy, window, size, up, id);
      FetchedRow(hash, w, show, policy, window, size, up, id);
      SettledRow(hash, w, show, policy, window, up, id);
    }
    NothingPending(hash, w, show, policy, window, size, up);
    NothingDoomed(hash, w, show, policy, window, up);
  }

  lemma NothingPending(
    hash: Bytes -> Hash, w: World, show: ShowSlug, policy: Policy, window: seq<EpisodeId>, size: EpisodeId -> nat, up: Upstream)
    requires Steady(w.table, show, window, size) && Cooperates(hash, show, window, size, up)
    requires WantsKnown(w.table, show, policy, window)
    requires var t := Settle(hash, w, show, policy, window, up).table;
             forall id :: id in window ==> (IsCached(t, Key(show, id)) <==> id in Wanted(w.table, show, policy, window))
    ensures Pending(Settle(hash, w, show, policy, window, up).table, show, policy, window) == []
  {
    var t := Settle(hash, w, show, policy, window, up).table;
    SizesStay(hash, w, show, policy, window, size, up);
    assert Wanted(t, show, policy, window) == Wanted(w.table, show, policy, window);
    PendingMembers(t, show, policy, window);
    SomeMember(Pending(t, show, policy, window));
  }

  lemma SomeMember(ids: seq<EpisodeId>)
    ensures ids != [] ==> exists id :: id in ids
  {
    if ids != [] { assert ids[0] in ids; }
  }

  /** Pruning leaves the cached rows it kept, in order, so planning them again dooms none. */
  lemma NothingDoomed(
    hash: Bytes -> Hash, w: World, show: ShowSlug, policy: Policy, window: seq<EpisodeId>, up: Upstream)
    requires WindowIsPrefix(w.table, show, window) && forall p: Path :: !up.refuses(p)
    ensures PrunePlan(Settle(hash, w, show, policy, window, up).table, show, policy) == []
  {
    var t, t' := Fetching(hash, w, show, policy, window, up).table, Settle(hash, w, show, policy, window, up).table;
    var cs := CachedCandidates(t, show);
    FetchingOrder(hash, w, show, policy, window, up);
    SettleOrder(hash, w, show, policy, window, up);
    KeptCandidates(hash, w, show, policy, window, up);
    ReplanIsStable(policy, cs);
    assert Doomed(policy, CachedCandidates(t', show)) == [];
  }

  lemma KeptCandidates(
    hash: Bytes -> Hash, w: World, show: ShowSlug, policy: Policy, window: seq<EpisodeId>, up: Upstream)
    requires WindowIsPrefix(w.table, show, window) && forall p: Path :: !up.refuses(p)
    ensures CachedCandidates(Settle(hash, w, show, policy, window, up).table, show)
            == Kept(policy, CachedCandidates(Fetching(hash, w, show, policy, window, up).table, show))
  {
    var t, t' := Fetching(hash, w, show, policy, window, up).table, Settle(hash, w, show, policy, window, up).table;
    FetchingOrder(hash, w, show, policy, window, up);
    SettleOrder(hash, w, show, policy, window, up);
    forall id: EpisodeId
      ensures IsCached(t', Key(show, id)) <==> IsCached(t, Key(show, id)) && id in Ids(Kept(policy, CachedCandidates(t, show)))
      ensures SizeOf(t', Key(show, id)) == SizeOf(t, Key(show, id))
    {
      SettledRow(hash, w, show, policy, window, up, id);
    }
    SurvivorsAreKept(t, t', show, policy);
  }

  /** When exactly the kept rows stay cached, in the same order and with the same sizes, the
      candidates of the next plan are the kept ones. */
  lemma SurvivorsAreKept(t: Table, t': Table, show: ShowSlug, policy: Policy)
    requires Ordered(t', show) == Ordered(t, show)
    requires forall id: EpisodeId ::
      IsCached(t', Key(show, id)) <==> IsCached(t, Key(show, id)) && id in Ids(Kept(policy, CachedCandidates(t, show)))
    requires forall id: EpisodeId :: SizeOf(t', Key(show, id)) == SizeOf(t, Key(show, id))
    ensures CachedCandidates(t', show) == Kept(policy, CachedCandidates(t, show))
  {
    var cs, kept := CachedCandidates(t, show), Kept(policy, CachedCandidates(t, show));
    SurvivorsInOrder(t, t', show, policy);
    KeptIds(policy, cs);
    SelectKeepsOrder(cs, Choice(policy, cs));
    forall i | 0 <= i < |kept| ensures CachedCandidates(t', show)[i] == kept[i] {
      assert kept[i] in cs;
    }
  }

  lemma SurvivorsInOrder(t: Table, t': Table, show: ShowSlug, policy: Policy)
    requires Ordered(t', show) == Ordered(t, show)
    requires forall id: EpisodeId ::
      IsCached(t', Key(show, id)) <==> IsCached(t, Key(show, id)) && id in Ids(Kept(policy, CachedCandidates(t, show)))
    ensures CachedInOrder(t', show) == Ids(Kept(policy, CachedCandidates(t, show)))
  {
    var cs, cached, cached' := CachedCandidates(t, show), CachedIds(t, show), CachedIds(t', show);
    CachedMembers(t, show);
    KeptIds(policy, cs);
    OrderedRows(t, show);
    OnlyTwice(Ordered(t, show), cached, cached');
    SelectedAgain(CachedInOrder(t, show), Choice(policy, cs), cached');
  }

  // ----- repeated syncs -----

  ghost predicate Active(
    hash: Bytes -> Hash, w: World, show: ShowSlug, policy: Policy, window: seq<EpisodeId>, up: Upstream)
  {
    SettleDownloaded(hash, w, show, policy, window, up) > 0 || SettleFreed(hash, w, show, policy, window, up).count > 0
  }

  /** How many of a series of syncs download or prune anything. */
  ghost function ActiveCount(
    hash: Bytes -> Hash, w: World, show: ShowSlug, policy: Policy, window: seq<EpisodeId>, ups: seq<Upstream>): nat
    decreases |ups|
  {
    if ups == [] then 0
    else
      (if Active(hash, w, show, policy, window, ups[0]) then 1 else 0)
      + ActiveCount(hash, Settle(hash, w, show, policy, window, ups[0]), show, policy, window, ups[1..])
  }

  lemma {:induction false} QuietForever(
    hash: Bytes -> Hash, w: World, show: ShowSlug, policy: Policy, window: seq<EpisodeId>, ups: seq<Upstream>)
    requires Quiet(w.table, show, policy, window)
    ensures ActiveCount(hash, w, show, policy, window, ups) == 0
    decreases |ups|
  {
    if ups != [] {
      QuietSyncIsNoop(hash, w, show, policy, window, ups[0]);
      QuietForever(hash, w, show, policy, window, ups[1..]);
    }
  }

  /** A sync that wants something of unknown size learns a size. */
  lemma LearnsASize(
    hash: Bytes -> Hash, w: World, show: ShowSlug, policy: Policy, window: seq<EpisodeId>, size: EpisodeId -> nat, up: Upstream)
    requires Steady(w.table, show, window, size) && Cooperates(hash, show, window, size, up)
    requires !WantsKnown(w.table, show, policy, window)
    ensures |Unknown(Settle(hash, w, show, policy, window, up).table, show, window)| + 1 <= |Unknown(w.table, show, window)|
  {
    var id :| id in Wanted(w.table, show, policy, window) && !SizeKnown(w.table, show, id);
    SettleKeepsSteady(hash, w, show, policy, window, size, up);
    WantedInWindow(w.table, show, policy, window);
    SmallerSet(Unknown(Settle(hash, w, show, policy, window, up).table, show, window), Unknown(w.table, show, window), id);
  }

  /** Of any number of cooperative syncs over a fixed prefix window, at most U + 1 download or
      prune anything, where U is the number of window rows without a recorded size. */
  lemma {:induction false} SyncsConverge(
    hash: Bytes -> Hash, w: World, show: ShowSlug, policy: Policy, window: seq<EpisodeId>, size: EpisodeId -> nat, ups: seq<Upstream>)
    requires Steady(w.table, show, window, size)
    requires forall i :: 0 <= i < |ups| ==> Cooperates(hash, show, window, size, ups[i])
    ensures ActiveCount(hash, w, show, policy, window, ups) <= |Unknown(w.table, show, window)| + 1
    decreases |ups|
  {
    if ups == [] {
      assert ActiveCount(hash, w, show, policy, window, ups) == 0;
    } else {
      var w' := OneSync(hash, w, show, policy, window, size, ups);
      var rest := ups[1..];
      assert forall i :: 0 <= i < |rest| ==> rest[i] == ups[i + 1];
      SyncsConverge(hash, w', show, policy, window, size, rest);
    }
  }

  lemma OneSync(
    hash: Bytes -> Hash, w: World, show: ShowSlug, policy: Policy, window: seq<EpisodeId>, size: EpisodeId -> nat, ups: seq<Upstream>)
    returns (w': World)
    requires Steady(w.table, show, window, size)
    requires ups != [] && Cooperates(hash, show, window, size, ups[0])
    ensures Steady(w'.table, show, window, size)
    ensures ActiveCount(hash, w, show, policy, window, ups) <= 1 + ActiveCount(hash, w', show, policy, window, ups[1..])
    ensures ActiveCount(hash, w', show, policy, window, ups[1..]) == 0
            || |Unknown(w'.table, show, window)| + 1 <= |Unknown(w.table, show, window)|
  {
    SettleKeepsSteady(hash, w, show, policy, window, size, ups[0]);
    CountStepsBack(hash, w, show, policy, window, ups);
    w' := Progress(hash, w, show, policy, window, size, ups);
  }

  lemma CountStepsBack(
    hash: Bytes -> Hash, w: World, show: ShowSlug, policy: Policy, window: seq<EpisodeId>, ups: seq<Upstream>)
    requires ups != []
    ensures ActiveCount(hash, w, show, policy, window, ups)
            <= 1 + ActiveCount(hash, Settle(hash, w, show, policy, window, ups[0]), show, policy, window, ups[1..])
  {
  }

  lemma Progress(
    hash: Bytes -> Hash, w: World, show: ShowSlug, policy: Policy, window: seq<EpisodeId>, size: EpisodeId -> nat, ups: seq<Upstream>)
    returns (w': World)
    requires Steady(w.table, show, window, size)
    requires ups != [] && Cooperates(hash, show, window, size, ups[0])
    ensures w' == Settle(hash, w, show, policy, window, ups[0])
    ensures ActiveCount(hash, w', show, policy, window, ups[1..]) == 0
            || |Unknown(w'.table, show, window)| + 1 <= |Unknown(w.table, show, window)|
  {
    w' := Settle(hash, w, show, policy, window, ups[0]);
    if WantsKnown(w.table, show, policy, window) {
      NothingAfterKnownSizes(hash, w, show, policy, window, size, ups);
    } else {
      LearnsASize(hash, w, show, policy, window, size, ups[0]);
    }
  }

  /** The first sync that wants no unknown size makes every later one a no-op. */
  lemma NothingAfterKnownSizes(
    hash: Bytes -> Hash, w: World, show: ShowSlug, policy: Policy, window: seq<EpisodeId>, size: EpisodeId -> nat, ups: seq<Upstream>)
    requires ups != [] && Steady(w.table, show, window, size) && Cooperates(hash, show, window, size, ups[0])
    requires WantsKnown(w.table, show, policy, window)
    ensures ActiveCount(hash, Settle(hash, w, show, policy, window, ups[0]), show, policy, window, ups[1..]) == 0
  {
    KnownSizesSettle(hash, w, show, policy, window, size, ups[0]);
    QuietForever(hash, Settle(hash, w, show, policy, window, ups[0]), show, policy, window, ups[1..]);
  }

  lemma SmallerSet(a: set<EpisodeId>, b: set<EpisodeId>, x: EpisodeId)
    requires a <= b && x in b && x !in a
    ensures |a| + 1 <= |b|
  {
    var rest := b - a;
    assert |b| == |a| + |rest| by { assert b == a + rest; }
    assert x in rest;
  }
}
