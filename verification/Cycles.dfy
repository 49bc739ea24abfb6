/** How many cycles planning with projected sizes can take when both limits matter: as many as
    there are episodes of unknown size. */
module Cycles {
  import opened Wrappers
  import opened Domain
  import opened Retention
  import opened Episodes
  import Download
  import opened World
  import opened Rows
  import opened Convergence
  import opened Projection

  // ----- the planner -----

  /** `n - 1` newest candidates that fit the cap together, `j` that do not fit beside them, and
      then one without a recorded size. */
  ghost predicate Trap(n: nat, cap: nat, cs: seq<Candidate>, j: nat)
    requires 0 < n
  {
    && n - 1 + j < |cs|
    && Retention.Bytes(cs[..n - 1]) <= cap
    && (forall i :: n - 1 <= i < n - 1 + j ==> Retention.Bytes(cs[..n - 1]) + cs[i].bytes > cap)
    && cs[n - 1 + j].bytes == 0
  }

  lemma BaseKept(n: nat, cap: nat, base: seq<Candidate>)
    requires |base| + 1 == n && Retention.Bytes(base) <= cap
    ensures Kept(Policy(Some(n), Some(cap)), base) == base
    ensures forall c: Candidate :: n >= 2 ==>
              (Feasible(Policy(Some(n), Some(cap)), base + [c]) <==> Retention.Bytes(base) + c.bytes <= cap)
  {
    FeasibleKeepsAll(Policy(Some(n), Some(cap)), base);
    forall c: Candidate ensures Retention.Bytes(base + [c]) == Retention.Bytes(base) + c.bytes { BytesAppend(base, c); }
  }

  /** Behind candidates that fill the count but for one place and leave no room for `known`, the
      first one without size takes the place and shuts out the rest. */
  lemma Tempted(n: nat, cap: nat, base: seq<Candidate>, known: seq<Candidate>, c: Candidate, rest: seq<Candidate>)
    requires n >= 2 && |base| + 1 == n && Retention.Bytes(base) <= cap && c.bytes == 0
    requires forall k :: k in known ==> Retention.Bytes(base) + k.bytes > cap
    ensures Kept(Policy(Some(n), Some(cap)), base + known) == base
    ensures Kept(Policy(Some(n), Some(cap)), base + known + [c] + rest) == base + [c]
  {
    var p := Policy(Some(n), Some(cap));
    BaseKept(n, cap, base);
    RejectedTail(p, base, known);
    Unfold(p, base + known, c);
    RejectedTail(p, base + known + [c], rest);
  }

  lemma TrapKept(n: nat, cap: nat, cs: seq<Candidate>, j: nat, i: nat)
    requires n >= 2 && Trap(n, cap, cs, j) && n - 1 <= i <= |cs|
    ensures i <= n - 1 + j ==> Kept(Policy(Some(n), Some(cap)), cs[..i]) == cs[..n - 1]
    ensures i > n - 1 + j ==> Kept(Policy(Some(n), Some(cap)), cs[..i]) == cs[..n - 1] + [cs[n - 1 + j]]
  {
    var m := n - 1 + j;
    if i <= m {
      Tempted(n, cap, cs[..n - 1], cs[n - 1..i], cs[m], []);
      assert cs[..n - 1] + cs[n - 1..i] == cs[..i];
    } else {
      Tempted(n, cap, cs[..n - 1], cs[n - 1..m], cs[m], cs[m + 1..i]);
      assert cs[..n - 1] + cs[n - 1..m] + [cs[m]] + cs[m + 1..i] == cs[..i];
    }
  }

  /** A prefix that is kept whole is picked whole. */
  lemma PickedWhole(policy: Policy, cs: seq<Candidate>, m: nat, i: nat)
    requires i < m <= |cs| && Kept(policy, cs[..m]) == cs[..m]
    ensures Choice(policy, cs)[i]
  {
    SelectAll(cs[..m], Choice(policy, cs[..m]));
    ChoicePrefix(policy, cs, m);
    assert Choice(policy, cs)[i] == Choice(policy, cs)[..m][i];
  }

  lemma TrapLater(n: nat, cap: nat, cs: seq<Candidate>, j: nat, i: nat, k: nat)
    requires n >= 2 && Trap(n, cap, cs, j) && k == n - 1 + j && n - 1 <= i < |cs|
    ensures Choice(Policy(Some(n), Some(cap)), cs)[i] <==> i == k
  {
    ChoiceAt(Policy(Some(n), Some(cap)), cs, i);
    TrapKept(n, cap, cs, j, i);
    NoRoom(n, cap, cs[..n - 1], cs[i], cs[k]);
  }

  lemma TrapNewest(n: nat, cap: nat, cs: seq<Candidate>, j: nat, i: nat, m: nat, policy: Policy)
    requires n >= 2 && Trap(n, cap, cs, j) && m + 1 == n && i < m && policy == Policy(Some(n), Some(cap))
    ensures Choice(policy, cs)[i]
  {
    FeasibleKeepsAll(policy, cs[..m]);
    PickedWhole(policy, cs, m, i);
  }

  /** The planner takes the newest ones and the unknown one, and nothing else. */
  lemma TrapChoice(n: nat, cap: nat, cs: seq<Candidate>, j: nat, i: nat)
    requires n >= 2 && Trap(n, cap, cs, j) && i < |cs|
    ensures Choice(Policy(Some(n), Some(cap)), cs)[i] <==> i < n - 1 || i == n - 1 + j
  {
    if i < n - 1 {
      TrapNewest(n, cap, cs, j, i, n - 1, Policy(Some(n), Some(cap)));
    } else {
      TrapLater(n, cap, cs, j, i, n - 1 + j);
    }
  }

  lemma NoRoom(n: nat, cap: nat, base: seq<Candidate>, c: Candidate, u: Candidate)
    requires n >= 2 && |base| + 1 == n
    ensures Feasible(Policy(Some(n), Some(cap)), base + [c]) <==> Retention.Bytes(base) + c.bytes <= cap
    ensures !Feasible(Policy(Some(n), Some(cap)), base + [u] + [c])
  {
    BytesAppend(base, c);
  }

  // ----- one sync -----

  /** The rows of the show are the window, and at most the `n - 1` newest are cached. */
  ghost predicate Scene(t: Table, show: ShowSlug, n: nat, window: seq<EpisodeId>, size: EpisodeId -> nat) {
    && 0 < n <= |window|
    && Steady(t, show, window, size) && Ordered(t, show) == window
    && forall i :: n - 1 <= i < |window| ==> !IsCached(t, Key(show, window[i]))
  }

  lemma SceneWants(
    t: Table, show: ShowSlug, n: nat, cap: nat, window: seq<EpisodeId>, size: EpisodeId -> nat, j: nat, i: nat)
    requires n >= 2 && Scene(t, show, n, window, size) && Trap(n, cap, Candidates(t, show, window), j) && i < |window|
    ensures window[i] in Wanted(t, show, Policy(Some(n), Some(cap)), window) <==> i < n - 1 || i == n - 1 + j
  {
    WindowRows(t, show, window);
    WantedAt(t, show, Policy(Some(n), Some(cap)), window, i);
    TrapChoice(n, cap, Candidates(t, show, window), j, i);
  }

  lemma SceneWantsNext(
    t: Table, show: ShowSlug, n: nat, cap: nat, window: seq<EpisodeId>, size: EpisodeId -> nat, j: nat, k: nat)
    requires n >= 2 && Scene(t, show, n, window, size) && Trap(n, cap, Candidates(t, show, window), j)
    requires k == n - 1 + j && k < |window|
    ensures window[k] in Wanted(t, show, Policy(Some(n), Some(cap)), window)
  {
    SceneWants(t, show, n, cap, window, size, j, k);
  }

  lemma SceneRowWaits(t: Table, show: ShowSlug, n: nat, window: seq<EpisodeId>, size: EpisodeId -> nat, i: nat)
    requires Scene(t, show, n, window, size) && n - 1 <= i < |window|
    ensures window[i] in window && IsPending(t, Key(show, window[i])) && Distinct(window)
  {
    WindowRows(t, show, window);
    assert window[i] in window;
  }

  lemma WantedIsPending(t: Table, show: ShowSlug, policy: Policy, window: seq<EpisodeId>, id: EpisodeId)
    requires Distinct(window) && id in window && id in Wanted(t, show, policy, window) && IsPending(t, Key(show, id))
    ensures var pending := Pending(t, show, policy, window);
            && Distinct(pending) && AllPending(t, show, pending) && id in pending
            && forall x :: x in pending ==> x in window
  {
    PendingMembers(t, show, policy, window);
  }

  /** A sync of such a scene downloads something. */
  lemma SceneIsActive(
    hash: Download.Bytes -> Hash, w: World, show: ShowSlug, n: nat, cap: nat, window: seq<EpisodeId>,
    size: EpisodeId -> nat, up: Upstream, j: nat, k: nat)
    requires n >= 2 && Scene(w.table, show, n, window, size) && Trap(n, cap, Candidates(w.table, show, window), j)
    requires k == n - 1 + j && k < |window| && Cooperates(hash, show, window, size, up)
    ensures Active(hash, w, show, Policy(Some(n), Some(cap)), window, up)
  {
    SceneWantsNext(w.table, show, n, cap, window, size, j, k);
    WantedIsFetched(hash, w, show, Policy(Some(n), Some(cap)), n, window, size, up, k);
  }

  lemma WantedIsFetched(
    hash: Download.Bytes -> Hash, w: World, show: ShowSlug, policy: Policy, n: nat, window: seq<EpisodeId>,
    size: EpisodeId -> nat, up: Upstream, i: nat)
    requires Scene(w.table, show, n, window, size) && n - 1 <= i < |window|
    requires window[i] in Wanted(w.table, show, policy, window) && Cooperates(hash, show, window, size, up)
    ensures Active(hash, w, show, policy, window, up)
  {
    SceneRowWaits(w.table, show, n, window, size, i);
    WantedIsPending(w.table, show, policy, window, window[i]);
    SomethingArrives(hash, w, show, window, size, up, Pending(w.table, show, policy, window), window[i]);
  }

  lemma SomethingArrives(
    hash: Download.Bytes -> Hash, w: World, show: ShowSlug, window: seq<EpisodeId>, size: EpisodeId -> nat, up: Upstream,
    ids: seq<EpisodeId>, id: EpisodeId)
    requires Distinct(ids) && AllPending(w.table, show, ids) && id in ids
    requires Cooperates(hash, show, window, size, up) && forall x :: x in ids ==> x in window
    ensures DownloadedCount(hash, w, show, ids, up) > 0
  {
    DownloadedStep(hash, w, show, ids, up);
    assert ids[|ids| - 1] in window;
  }

  lemma SomethingGoes(w: World, show: ShowSlug, ids: seq<EpisodeId>, up: Upstream)
    requires Distinct(ids) && AllCached(w.table, show, ids) && ids != []
    requires forall p: Path :: !up.refuses(p)
    ensures PruneFreed(w, show, ids, up).count > 0
  {
    var n := |ids| - 1;
    assert ids[n] in ids;
    assert AllCached(w.table, show, ids[..n]);
    PruneRow(w, show, ids[..n], up, Key(show, ids[n]));
  }

  /** A cooperative sync of a steady library downloads or prunes something exactly when, on entry, a
      wanted episode is missing or a cached one is beyond the limits. */
  lemma ActiveExactly(
    hash: Download.Bytes -> Hash, w: World, show: ShowSlug, policy: Policy, window: seq<EpisodeId>,
    size: EpisodeId -> nat, up: Upstream)
    requires Steady(w.table, show, window, size) && Cooperates(hash, show, window, size, up)
    ensures Active(hash, w, show, policy, window, up)
            <==> Pending(w.table, show, policy, window) != [] || PrunePlan(w.table, show, policy) != []
  {
    var ids := Pending(w.table, show, policy, window);
    PendingMembers(w.table, show, policy, window);
    PlanMembers(w.table, show, policy);
    if ids != [] {
      OrderedRows(w.table, show);
      SomethingArrives(hash, w, show, window, size, up, ids, ids[0]);
    } else if PrunePlan(w.table, show, policy) != [] {
      SomethingGoes(w, show, PrunePlan(w.table, show, policy), up);
    } else {
      QuietSyncIsNoop(hash, w, show, policy, window, up);
    }
  }

  lemma {:induction false} OnlyAll(ids: seq<EpisodeId>, s: set<EpisodeId>)
    requires forall i :: 0 <= i < |ids| ==> ids[i] in s
    ensures Only(ids, s) == ids
  {
    if ids != [] {
      OnlyAll(ids[..|ids| - 1], s);
      assert ids == ids[..|ids| - 1] + [ids[|ids| - 1]];
    }
  }

  lemma {:induction false} OnlyNone(ids: seq<EpisodeId>, s: set<EpisodeId>)
    requires forall i :: 0 <= i < |ids| ==> ids[i] !in s
    ensures Only(ids, s) == []
  {
    if ids != [] { OnlyNone(ids[..|ids| - 1], s); }
  }

  lemma OnlyFront(a: seq<EpisodeId>, b: seq<EpisodeId>, s: set<EpisodeId>)
    requires forall i :: 0 <= i < |a| ==> a[i] in s
    requires forall i :: 0 <= i < |b| ==> b[i] !in s
    ensures Only(a + b, s) == a
  {
    OnlyAll(a, s);
    OnlyNone(b, s);
    OnlyAppend(a, b, s);
  }

  /** Picking the first `m` and one later entry. */
  lemma OnlyTwoParts(ids: seq<EpisodeId>, s: set<EpisodeId>, m: nat, k: nat)
    requires m <= k < |ids|
    requires forall i :: 0 <= i < |ids| ==> (ids[i] in s <==> i < m || i == k)
    ensures Only(ids, s) == ids[..m] + [ids[k]]
  {
    var front, back := ids[..k], ids[k..];
    OnlyFront(front[..m], front[m..], s);
    assert front[..m] + front[m..] == front && front[..m] == ids[..m];
    OnlyFront([ids[k]], back[1..], s);
    assert [ids[k]] + back[1..] == back;
    OnlyAppend(front, back, s);
    assert front + back == ids;
  }

  /** Which rows are cached between the downloads and the pruning. */
  lemma SceneFetches(
    hash: Download.Bytes -> Hash, w: World, show: ShowSlug, n: nat, cap: nat, window: seq<EpisodeId>,
    size: EpisodeId -> nat, up: Upstream, j: nat, i: nat)
    requires n >= 2 && Scene(w.table, show, n, window, size) && Trap(n, cap, Candidates(w.table, show, window), j)
    requires Cooperates(hash, show, window, size, up) && i < |window|
    ensures var t := Fetching(hash, w, show, Policy(Some(n), Some(cap)), window, up).table;
            && (IsCached(t, Key(show, window[i])) <==> i < n - 1 || i == n - 1 + j)
            && (i < n - 1 || i == n - 1 + j ==> SizeOf(t, Key(show, window[i])) == size(window[i]))
  {
    assert window[i] in window;
    SceneWants(w.table, show, n, cap, window, size, j, i);
    FetchedRow(hash, w, show, Policy(Some(n), Some(cap)), window, size, up, window[i]);
  }

  /** The true sizes: the newest fit together, and the one fetched does not fit beside them. */
  ghost predicate Overfull(n: nat, cap: nat, window: seq<EpisodeId>, size: EpisodeId -> nat, k: nat)
    requires 0 < n && n - 1 <= k < |window|
  {
    var base := Sized(window[..n - 1], size);
    Retention.Bytes(base) <= cap < Retention.Bytes(base) + size(window[k])
  }

  function Sized(ids: seq<EpisodeId>, size: EpisodeId -> nat): (cs: seq<Candidate>)
    ensures |cs| == |ids| && forall i :: 0 <= i < |cs| ==> cs[i] == Candidate(ids[i], size(ids[i]))
  {
    seq(|ids|, i requires 0 <= i < |ids| => Candidate(ids[i], size(ids[i])))
  }

  lemma SceneCachedAt(
    hash: Download.Bytes -> Hash, w: World, show: ShowSlug, n: nat, cap: nat, window: seq<EpisodeId>,
    size: EpisodeId -> nat, up: Upstream, j: nat, i: nat, k: nat, t: Table)
    requires n >= 2 && Scene(w.table, show, n, window, size) && Trap(n, cap, Candidates(w.table, show, window), j)
    requires Cooperates(hash, show, window, size, up) && i < |window| && k == n - 1 + j
    requires t == Fetching(hash, w, show, Policy(Some(n), Some(cap)), window, up).table && Ordered(t, show) == window
    ensures window[i] in CachedIds(t, show) <==> i < n - 1 || i == k
    ensures i < n - 1 || i == k ==> SizeOf(t, Key(show, window[i])) == size(window[i])
  {
    assert Ordered(t, show)[i] == window[i];
    SceneFetches(hash, w, show, n, cap, window, size, up, j, i);
  }

  /** The cached rows between the downloads and the pruning, with their true sizes. */
  lemma SceneCached(
    hash: Download.Bytes -> Hash, w: World, show: ShowSlug, n: nat, cap: nat, window: seq<EpisodeId>,
    size: EpisodeId -> nat, up: Upstream, j: nat)
    requires n >= 2 && Scene(w.table, show, n, window, size) && Trap(n, cap, Candidates(w.table, show, window), j)
    requires Cooperates(hash, show, window, size, up)
    ensures CachedCandidates(Fetching(hash, w, show, Policy(Some(n), Some(cap)), window, up).table, show)
            == Sized(window[..n - 1], size) + [Candidate(window[n - 1 + j], size(window[n - 1 + j]))]
  {
    var k := n - 1 + j;
    var t := Fetching(hash, w, show, Policy(Some(n), Some(cap)), window, up).table;
    FetchingOrder(hash, w, show, Policy(Some(n), Some(cap)), window, up);
    forall i | 0 <= i < |window|
      ensures window[i] in CachedIds(t, show) <==> i < n - 1 || i == k
      ensures i < n - 1 || i == k ==> SizeOf(t, Key(show, window[i])) == size(window[i])
    {
      SceneCachedAt(hash, w, show, n, cap, window, size, up, j, i, k, t);
    }
    SizedInOrder(t, show, n - 1, k, window, size);
  }

  lemma SizedInOrder(t: Table, show: ShowSlug, m: nat, k: nat, window: seq<EpisodeId>, size: EpisodeId -> nat)
    requires m <= k < |window| && Ordered(t, show) == window
    requires forall i :: 0 <= i < |window| ==> (window[i] in CachedIds(t, show) <==> i < m || i == k)
    requires forall i :: 0 <= i < |window| && (i < m || i == k) ==> SizeOf(t, Key(show, window[i])) == size(window[i])
    ensures CachedCandidates(t, show) == Sized(window[..m], size) + [Candidate(window[k], size(window[k]))]
  {
    OnlyTwoParts(window, CachedIds(t, show), m, k);
  }

  /** After the downloads the planner keeps the newest ones and drops the one just fetched. */
  lemma SceneKeeps(
    hash: Download.Bytes -> Hash, w: World, show: ShowSlug, n: nat, cap: nat, window: seq<EpisodeId>,
    size: EpisodeId -> nat, up: Upstream, j: nat)
    requires n >= 2 && Scene(w.table, show, n, window, size) && Trap(n, cap, Candidates(w.table, show, window), j)
    requires Cooperates(hash, show, window, size, up) && Overfull(n, cap, window, size, n - 1 + j)
    ensures var t := Fetching(hash, w, show, Policy(Some(n), Some(cap)), window, up).table;
            Ids(Kept(Policy(Some(n), Some(cap)), CachedCandidates(t, show))) == window[..n - 1]
  {
    SceneCached(hash, w, show, n, cap, window, size, up, j);
    LastDropped(n, cap, Sized(window[..n - 1], size), Candidate(window[n - 1 + j], size(window[n - 1 + j])));
    assert Ids(Sized(window[..n - 1], size)) == window[..n - 1];
  }

  lemma LastDropped(n: nat, cap: nat, base: seq<Candidate>, last: Candidate)
    requires n >= 2 && |base| + 1 == n && Retention.Bytes(base) <= cap < Retention.Bytes(base) + last.bytes
    ensures Kept(Policy(Some(n), Some(cap)), base + [last]) == base
  {
    BaseKept(n, cap, base);
    Unfold(Policy(Some(n), Some(cap)), base, last);
  }

  /** One cycle: the newest rows end up cached with their sizes known, and the unknown one was
      fetched, measured and pruned. */
  lemma SceneStep(
    hash: Download.Bytes -> Hash, w: World, show: ShowSlug, n: nat, cap: nat, window: seq<EpisodeId>,
    size: EpisodeId -> nat, up: Upstream, j: nat)
    requires n >= 2 && Scene(w.table, show, n, window, size) && Trap(n, cap, Candidates(w.table, show, window), j)
    requires Cooperates(hash, show, window, size, up) && Overfull(n, cap, window, size, n - 1 + j)
    ensures var t' := Settle(hash, w, show, Policy(Some(n), Some(cap)), window, up).table;
            && Scene(t', show, n, window, size)
            && forall i :: 0 <= i < |window| ==>
                 && (IsCached(t', Key(show, window[i])) <==> i < n - 1)
                 && (SizeKnown(t', show, window[i]) <==> SizeKnown(w.table, show, window[i]) || i < n - 1 || i == n - 1 + j)
  {
    var policy := Policy(Some(n), Some(cap));
    var t' := Settle(hash, w, show, policy, window, up).table;
    SettleKeepsSteady(hash, w, show, policy, window, size, up);
    SettleOrder(hash, w, show, policy, window, up);
    forall i | 0 <= i < |window|
      ensures IsCached(t', Key(show, window[i])) <==> i < n - 1
      ensures SizeKnown(t', show, window[i]) <==> SizeKnown(w.table, show, window[i]) || i < n - 1 || i == n - 1 + j
    {
      SceneRow(hash, w, show, n, cap, window, size, up, j, i);
    }
  }

  lemma SceneRow(
    hash: Download.Bytes -> Hash, w: World, show: ShowSlug, n: nat, cap: nat, window: seq<EpisodeId>,
    size: EpisodeId -> nat, up: Upstream, j: nat, i: nat)
    requires n >= 2 && Scene(w.table, show, n, window, size) && Trap(n, cap, Candidates(w.table, show, window), j)
    requires Cooperates(hash, show, window, size, up) && Overfull(n, cap, window, size, n - 1 + j) && i < |window|
    ensures var t' := Settle(hash, w, show, Policy(Some(n), Some(cap)), window, up).table;
            && (IsCached(t', Key(show, window[i])) <==> i < n - 1)
            && (SizeKnown(t', show, window[i]) <==> SizeKnown(w.table, show, window[i]) || i < n - 1 || i == n - 1 + j)
  {
    assert window[i] in window;
    WindowRows(w.table, show, window);
    SceneWants(w.table, show, n, cap, window, size, j, i);
    SceneFetches(hash, w, show, n, cap, window, size, up, j, i);
    SceneKeeps(hash, w, show, n, cap, window, size, up, j);
    SettledRow(hash, w, show, Policy(Some(n), Some(cap)), window, up, window[i]);
    SizesAfter(hash, w, show, Policy(Some(n), Some(cap)), window, size, up, window[i]);
    InFirst(window, n - 1, i);
  }

  lemma InFirst(ids: seq<EpisodeId>, m: nat, i: nat)
    requires Distinct(ids) && m <= |ids| && i < |ids|
    ensures ids[i] in ids[..m] <==> i < m
  {
    if i < m { assert ids[..m][i] == ids[i]; }
  }

  // ----- cycle after cycle -----

  /** The true sizes of a window: the `n - 1` newest fit the cap together, none of the next `u`
      fits beside them, and what follows has no size. */
  ghost predicate Laden(n: nat, cap: nat, window: seq<EpisodeId>, size: EpisodeId -> nat, u: nat) {
    && 0 < n && n - 1 + u <= |window|
    && Retention.Bytes(Sized(window[..n - 1], size)) <= cap
    && (forall k :: n - 1 <= k < n - 1 + u ==> Overfull(n, cap, window, size, k))
    && (forall k :: n - 1 + u <= k < |window| ==> size(window[k]) == 0)
  }

  /** The newest rows are cached, and of the next `u` the sizes of all but the first `j` are
      unknown. */
  ghost predicate Stage(t: Table, show: ShowSlug, n: nat, window: seq<EpisodeId>, size: EpisodeId -> nat, u: nat, j: nat) {
    && Scene(t, show, n, window, size)
    && forall i :: 0 <= i < |window| ==>
         && (IsCached(t, Key(show, window[i])) <==> i < n - 1)
         && (SizeKnown(t, show, window[i]) <==> i < n - 1 + j || i >= n - 1 + u)
  }

  /** Nothing is cached and no size is known. */
  ghost predicate Blank(t: Table, show: ShowSlug, n: nat, window: seq<EpisodeId>, size: EpisodeId -> nat) {
    && Scene(t, show, n, window, size)
    && forall i :: 0 <= i < |window| ==> !IsCached(t, Key(show, window[i])) && !SizeKnown(t, show, window[i])
  }

  lemma KnownSize(t: Table, show: ShowSlug, window: seq<EpisodeId>, size: EpisodeId -> nat, i: nat)
    requires Steady(t, show, window, size) && i < |window|
    ensures SizeOf(t, Key(show, window[i])) == if SizeKnown(t, show, window[i]) then size(window[i]) else 0
  {
    assert window[i] in window;
  }

  lemma StageIsTrap(
    t: Table, show: ShowSlug, n: nat, cap: nat, window: seq<EpisodeId>, size: EpisodeId -> nat, u: nat, j: nat)
    requires n >= 2 && Laden(n, cap, window, size, u) && Stage(t, show, n, window, size, u, j)
    requires j <= u && n - 1 + j < |window|
    ensures Trap(n, cap, Candidates(t, show, window), j)
  {
    var cs := Candidates(t, show, window);
    forall i | 0 <= i < |window| ensures cs[i].bytes == if SizeKnown(t, show, window[i]) then size(window[i]) else 0 {
      KnownSize(t, show, window, size, i);
    }
    assert cs[..n - 1] == Sized(window[..n - 1], size);
    forall i | n - 1 <= i < n - 1 + j ensures Retention.Bytes(cs[..n - 1]) + cs[i].bytes > cap {
      assert Overfull(n, cap, window, size, i);
    }
  }

  lemma BlankIsTrap(t: Table, show: ShowSlug, n: nat, cap: nat, window: seq<EpisodeId>, size: EpisodeId -> nat)
    requires n >= 2 && Blank(t, show, n, window, size)
    ensures Trap(n, cap, Candidates(t, show, window), 0)
  {
    var cs := Candidates(t, show, window);
    forall i | 0 <= i < |window| ensures cs[i].bytes == 0 { KnownSize(t, show, window, size, i); }
    WeightlessBytes(cs[..n - 1]);
  }

  lemma StageStep(
    hash: Download.Bytes -> Hash, w: World, show: ShowSlug, n: nat, cap: nat, window: seq<EpisodeId>,
    size: EpisodeId -> nat, up: Upstream, u: nat, j: nat)
    requires n >= 2 && Laden(n, cap, window, size, u) && Stage(w.table, show, n, window, size, u, j) && j < u
    requires Cooperates(hash, show, window, size, up)
    ensures Stage(Settle(hash, w, show, Policy(Some(n), Some(cap)), window, up).table, show, n, window, size, u, j + 1)
  {
    StageIsTrap(w.table, show, n, cap, window, size, u, j);
    assert Overfull(n, cap, window, size, n - 1 + j);
    SceneStep(hash, w, show, n, cap, window, size, up, j);
  }

  /** From nothing, the first cycle fetches the newest ones and the first that does not fit. */
  lemma BlankStep(
    hash: Download.Bytes -> Hash, w: World, show: ShowSlug, n: nat, cap: nat, window: seq<EpisodeId>,
    size: EpisodeId -> nat, up: Upstream, u: nat)
    requires n >= 2 && Laden(n, cap, window, size, u) && Blank(w.table, show, n, window, size)
    requires u > 0 && n - 1 + u == |window|
    requires Cooperates(hash, show, window, size, up)
    ensures Stage(Settle(hash, w, show, Policy(Some(n), Some(cap)), window, up).table, show, n, window, size, u, 1)
  {
    BlankIsTrap(w.table, show, n, cap, window, size);
    assert Overfull(n, cap, window, size, n - 1);
    SceneStep(hash, w, show, n, cap, window, size, up, 0);
  }

  /** `ws` are the states a series of active syncs goes through. */
  ghost predicate Chain(
    hash: Download.Bytes -> Hash, ws: seq<World>, show: ShowSlug, policy: Policy, window: seq<EpisodeId>, ups: seq<Upstream>)
  {
    |ws| == |ups| + 1 && forall i :: 0 <= i < |ups| ==> Link(hash, ws[i], ws[i + 1], show, policy, window, ups[i])
  }

  ghost predicate Link(
    hash: Download.Bytes -> Hash, w: World, w': World, show: ShowSlug, policy: Policy, window: seq<EpisodeId>, up: Upstream)
  {
    w' == Settle(hash, w, show, policy, window, up) && Active(hash, w, show, policy, window, up)
  }

  lemma LinkCounts(
    hash: Download.Bytes -> Hash, w: World, w': World, show: ShowSlug, policy: Policy, window: seq<EpisodeId>, ups: seq<Upstream>)
    requires ups != [] && Link(hash, w, w', show, policy, window, ups[0])
    ensures ActiveCount(hash, w, show, policy, window, ups)
            == 1 + ActiveCount(hash, w', show, policy, window, ups[1..])
  {
  }

  lemma ChainRest(
    hash: Download.Bytes -> Hash, ws: seq<World>, later: seq<World>, show: ShowSlug, policy: Policy, window: seq<EpisodeId>,
    ups: seq<Upstream>, rest: seq<Upstream>)
    requires Chain(hash, ws, show, policy, window, ups) && ups != [] && later == ws[1..] && rest == ups[1..]
    ensures Chain(hash, later, show, policy, window, rest)
  {
    forall i | 0 <= i < |rest| ensures Link(hash, later[i], later[i + 1], show, policy, window, rest[i]) {
      assert Link(hash, ws[i + 1], ws[i + 2], show, policy, window, ups[i + 1]);
    }
  }

  lemma {:induction false} ChainCounts(
    hash: Download.Bytes -> Hash, ws: seq<World>, show: ShowSlug, policy: Policy, window: seq<EpisodeId>, ups: seq<Upstream>)
    requires Chain(hash, ws, show, policy, window, ups)
    ensures ActiveCount(hash, ws[0], show, policy, window, ups) == |ups|
    decreases |ups|
  {
    if ups != [] {
      ChainRest(hash, ws, ws[1..], show, policy, window, ups, ups[1..]);
      LinkCounts(hash, ws[0], ws[1], show, policy, window, ups);
      ChainCounts(hash, ws[1..], show, policy, window, ups[1..]);
    }
  }

  lemma StageLink(
    hash: Download.Bytes -> Hash, w: World, show: ShowSlug, n: nat, cap: nat, window: seq<EpisodeId>,
    size: EpisodeId -> nat, up: Upstream, u: nat, j: nat)
    returns (w': World)
    requires n >= 2 && Laden(n, cap, window, size, u) && Stage(w.table, show, n, window, size, u, j)
    requires j <= u && n - 1 + j < |window| && Cooperates(hash, show, window, size, up)
    ensures Link(hash, w, w', show, Policy(Some(n), Some(cap)), window, up)
    ensures j < u ==> Stage(w'.table, show, n, window, size, u, j + 1)
  {
    w' := Settle(hash, w, show, Policy(Some(n), Some(cap)), window, up);
    StageIsTrap(w.table, show, n, cap, window, size, u, j);
    SceneIsActive(hash, w, show, n, cap, window, size, up, j, n - 1 + j);
    if j < u { StageStep(hash, w, show, n, cap, window, size, up, u, j); }
  }

  lemma ChainGrows(
    hash: Download.Bytes -> Hash, w: World, later: seq<World>, show: ShowSlug, policy: Policy, window: seq<EpisodeId>,
    ups: seq<Upstream>)
    requires ups != [] && Chain(hash, later, show, policy, window, ups[1..])
    requires Link(hash, w, later[0], show, policy, window, ups[0])
    ensures Chain(hash, [w] + later, show, policy, window, ups)
  {
    var ws := [w] + later;
    forall i | 0 <= i < |ups| ensures Link(hash, ws[i], ws[i + 1], show, policy, window, ups[i]) {
      if i > 0 { assert Link(hash, later[i - 1], later[i], show, policy, window, ups[1..][i - 1]); }
    }
  }

  ghost predicate AllCooperate(
    hash: Download.Bytes -> Hash, show: ShowSlug, window: seq<EpisodeId>, size: EpisodeId -> nat, ups: seq<Upstream>)
  {
    forall i :: 0 <= i < |ups| ==> Cooperates(hash, show, window, size, ups[i])
  }

  lemma RestCooperates(
    hash: Download.Bytes -> Hash, show: ShowSlug, window: seq<EpisodeId>, size: EpisodeId -> nat, ups: seq<Upstream>)
    requires ups != [] && AllCooperate(hash, show, window, size, ups)
    ensures Cooperates(hash, show, window, size, ups[0]) && AllCooperate(hash, show, window, size, ups[1..])
  {
    forall i | 0 <= i < |ups| - 1 ensures Cooperates(hash, show, window, size, ups[1..][i]) {
      assert Cooperates(hash, show, window, size, ups[i + 1]);
    }
  }

  lemma {:induction false} StagesChain(
    hash: Download.Bytes -> Hash, w: World, show: ShowSlug, n: nat, cap: nat, window: seq<EpisodeId>,
    size: EpisodeId -> nat, ups: seq<Upstream>, u: nat, j: nat)
    returns (ws: seq<World>)
    requires n >= 2 && Laden(n, cap, window, size, u) && Stage(w.table, show, n, window, size, u, j) && j <= u
    requires AllCooperate(hash, show, window, size, ups)
    requires j + |ups| <= u + if n - 1 + u < |window| then 1 else 0
    ensures Chain(hash, ws, show, Policy(Some(n), Some(cap)), window, ups) && ws[0] == w
    decreases |ups|, 0
  {
    if ups == [] {
      ws := [w];
    } else {
      RestCooperates(hash, show, window, size, ups);
      var w' := StageLink(hash, w, show, n, cap, window, size, ups[0], u, j);
      var later := LaterStages(hash, w', show, n, cap, window, size, ups[1..], u, j + 1);
      ChainGrows(hash, w, later, show, Policy(Some(n), Some(cap)), window, ups);
      ws := [w] + later;
    }
  }

  lemma {:induction false} LaterStages(
    hash: Download.Bytes -> Hash, w: World, show: ShowSlug, n: nat, cap: nat, window: seq<EpisodeId>,
    size: EpisodeId -> nat, ups: seq<Upstream>, u: nat, j: nat)
    returns (ws: seq<World>)
    requires n >= 2 && Laden(n, cap, window, size, u) && j <= u + 1
    requires j <= u ==> Stage(w.table, show, n, window, size, u, j)
    requires AllCooperate(hash, show, window, size, ups)
    requires j + |ups| <= u + if n - 1 + u < |window| then 1 else 0
    ensures Chain(hash, ws, show, Policy(Some(n), Some(cap)), window, ups) && ws[0] == w
    decreases |ups|, 1
  {
    if ups == [] { ws := [w]; }
    else { ws := StagesChain(hash, w, show, n, cap, window, size, ups, u, j); }
  }

  // ----- what each cycle does -----

  /** The one episode the cycle downloads is `window[k]`, whose size nobody knew; in the end its true
      size is recorded and it is a tombstone again. Nothing else in the window comes or goes. */
  ghost predicate TriesOne(
    hash: Download.Bytes -> Hash, w: World, show: ShowSlug, policy: Policy, window: seq<EpisodeId>,
    size: EpisodeId -> nat, up: Upstream, k: nat)
    requires k < |window|
  {
    && Pending(w.table, show, policy, window) == [window[k]]
    && IsCached(Fetching(hash, w, show, policy, window, up).table, Key(show, window[k]))
    && !SizeKnown(w.table, show, window[k])
    && Measured(Settle(hash, w, show, policy, window, up).table, show, window[k], size(window[k]))
    && SameBut(w.table, Settle(hash, w, show, policy, window, up).table, show, window, k)
  }

  ghost predicate Measured(t: Table, show: ShowSlug, id: EpisodeId, bytes: nat) {
    SizeKnown(t, show, id) && SizeOf(t, Key(show, id)) == bytes && t[Key(show, id)].state == Pruned
  }

  ghost predicate SameBut(t: Table, t': Table, show: ShowSlug, window: seq<EpisodeId>, k: nat) {
    forall i :: 0 <= i < |window| && i != k ==>
      && (IsCached(t', Key(show, window[i])) <==> IsCached(t, Key(show, window[i])))
      && (SizeKnown(t', show, window[i]) <==> SizeKnown(t, show, window[i]))
  }

  lemma OnlyPending(
    t: Table, show: ShowSlug, n: nat, cap: nat, window: seq<EpisodeId>, size: EpisodeId -> nat, j: nat, k: nat)
    requires n >= 2 && Scene(t, show, n, window, size) && Trap(n, cap, Candidates(t, show, window), j)
    requires k == n - 1 + j && k < |window| && forall i :: 0 <= i < n - 1 ==> IsCached(t, Key(show, window[i]))
    ensures Pending(t, show, Policy(Some(n), Some(cap)), window) == [window[k]]
  {
    var policy := Policy(Some(n), Some(cap));
    var s := Wanted(t, show, policy, window) * PendingIds(t, show, window);
    forall i | 0 <= i < |window| ensures window[i] in s <==> i < 0 || i == k {
      SceneWants(t, show, n, cap, window, size, j, i);
      if i == k { SceneRowWaits(t, show, n, window, size, i); }
    }
    OnlyTwoParts(window, s, 0, k);
  }

  /** A row the pruning removes is a tombstone. */
  lemma UncachedIsPruned(
    hash: Download.Bytes -> Hash, w: World, show: ShowSlug, policy: Policy, window: seq<EpisodeId>, up: Upstream, id: EpisodeId)
    requires IsCached(Fetching(hash, w, show, policy, window, up).table, Key(show, id))
    requires !IsCached(Settle(hash, w, show, policy, window, up).table, Key(show, id))
    ensures Key(show, id) in Settle(hash, w, show, policy, window, up).table
    ensures Settle(hash, w, show, policy, window, up).table[Key(show, id)].state == Pruned
  {
    var w' := Fetching(hash, w, show, policy, window, up);
    PlanMembers(w'.table, show, policy);
    PruneRow(w', show, PrunePlan(w'.table, show, policy), up, Key(show, id));
  }

  lemma StageTries(
    hash: Download.Bytes -> Hash, w: World, show: ShowSlug, n: nat, cap: nat, window: seq<EpisodeId>,
    size: EpisodeId -> nat, up: Upstream, u: nat, j: nat, k: nat)
    requires n >= 2 && Laden(n, cap, window, size, u) && Stage(w.table, show, n, window, size, u, j) && j < u
    requires Cooperates(hash, show, window, size, up) && k == n - 1 + j && k < |window|
    ensures TriesOne(hash, w, show, Policy(Some(n), Some(cap)), window, size, up, k)
  {
    StageIsTrap(w.table, show, n, cap, window, size, u, j);
    StageStep(hash, w, show, n, cap, window, size, up, u, j);
    OnlyPending(w.table, show, n, cap, window, size, j, k);
    SceneFetches(hash, w, show, n, cap, window, size, up, j, k);
    UncachedIsPruned(hash, w, show, Policy(Some(n), Some(cap)), window, up, window[k]);
    StageMoves(w.table, Settle(hash, w, show, Policy(Some(n), Some(cap)), window, up).table, show, n, window, size, u, j, k);
  }

  lemma StageMoves(
    t: Table, t': Table, show: ShowSlug, n: nat, window: seq<EpisodeId>, size: EpisodeId -> nat, u: nat, j: nat, k: nat)
    requires n >= 2 && j < u && k == n - 1 + j && k < |window|
    requires Stage(t, show, n, window, size, u, j) && Stage(t', show, n, window, size, u, j + 1)
    ensures !SizeKnown(t, show, window[k])
    ensures SizeKnown(t', show, window[k]) && SizeOf(t', Key(show, window[k])) == size(window[k])
    ensures SameBut(t, t', show, window, k)
  {
    KnownSize(t', show, window, size, k);
  }

  /** Cycle after cycle, as long as there is one of `window[k..last]` left, the next is tried. */
  ghost predicate TriesInTurn(
    hash: Download.Bytes -> Hash, w: World, show: ShowSlug, policy: Policy, window: seq<EpisodeId>,
    size: EpisodeId -> nat, ups: seq<Upstream>, k: nat, last: nat)
    requires last <= |window|
    decreases |ups|
  {
    ups == [] || k >= last
    || (TriesOne(hash, w, show, policy, window, size, ups[0], k)
        && TriesInTurn(hash, Settle(hash, w, show, policy, window, ups[0]), show, policy, window, size, ups[1..], k + 1, last))
  }

  lemma FirstTry(
    hash: Download.Bytes -> Hash, w: World, w': World, show: ShowSlug, n: nat, cap: nat, window: seq<EpisodeId>,
    size: EpisodeId -> nat, up: Upstream, u: nat, j: nat, k: nat)
    requires n >= 2 && Laden(n, cap, window, size, u) && Stage(w.table, show, n, window, size, u, j) && j < u
    requires Cooperates(hash, show, window, size, up) && k == n - 1 + j && k < |window|
    requires w' == Settle(hash, w, show, Policy(Some(n), Some(cap)), window, up)
    ensures TriesOne(hash, w, show, Policy(Some(n), Some(cap)), window, size, up, k)
    ensures Stage(w'.table, show, n, window, size, u, j + 1)
  {
    StageTries(hash, w, show, n, cap, window, size, up, u, j, k);
    StageStep(hash, w, show, n, cap, window, size, up, u, j);
  }

  /** What one cycle after the other keeps, they keep together. */
  lemma {:induction false} TriesByInvariant(
    hash: Download.Bytes -> Hash, w: World, show: ShowSlug, policy: Policy, window: seq<EpisodeId>, size: EpisodeId -> nat,
    ups: seq<Upstream>, k: nat, last: nat, inv: (World, nat) -> bool, good: Upstream -> bool)
    requires last <= |window| && inv(w, k) && forall i :: 0 <= i < |ups| ==> good(ups[i])
    requires forall w: World, k: nat, up: Upstream :: inv(w, k) && good(up) && k < last ==>
               TriesOne(hash, w, show, policy, window, size, up, k) && inv(Settle(hash, w, show, policy, window, up), k + 1)
    ensures TriesInTurn(hash, w, show, policy, window, size, ups, k, last)
    decreases |ups|
  {
    if ups != [] && k < last {
      var w' := Settle(hash, w, show, policy, window, ups[0]);
      assert good(ups[0]);
      TriesByInvariant(hash, w', show, policy, window, size, ups[1..], k + 1, last, inv, good);
    }
  }

  /** The cycle that is to try `window[i]` has come. */
  ghost predicate Come(
    x: World, show: ShowSlug, n: nat, cap: nat, window: seq<EpisodeId>, size: EpisodeId -> nat, u: nat, i: nat)
  {
    && n >= 2 && Laden(n, cap, window, size, u) && n - 1 <= i <= n - 1 + u
    && Stage(x.table, show, n, window, size, u, i - (n - 1))
  }

  lemma ComeAndTry(
    hash: Download.Bytes -> Hash, x: World, show: ShowSlug, n: nat, cap: nat, window: seq<EpisodeId>,
    size: EpisodeId -> nat, up: Upstream, u: nat, i: nat, j: nat)
    requires Come(x, show, n, cap, window, size, u, i) && j + (n - 1) == i && j < u && Cooperates(hash, show, window, size, up)
    ensures i < |window| && TriesOne(hash, x, show, Policy(Some(n), Some(cap)), window, size, up, i)
    ensures Come(Settle(hash, x, show, Policy(Some(n), Some(cap)), window, up), show, n, cap, window, size, u, i + 1)
  {
    FirstTry(hash, x, Settle(hash, x, show, Policy(Some(n), Some(cap)), window, up), show, n, cap, window, size, up, u, j, i);
  }

  lemma ComeAlways(
    hash: Download.Bytes -> Hash, show: ShowSlug, n: nat, cap: nat, window: seq<EpisodeId>, size: EpisodeId -> nat, u: nat,
    last: nat, policy: Policy)
    requires n > 0 && last == n - 1 + u && last <= |window| && policy == Policy(Some(n), Some(cap))
    ensures forall x: World, i: nat, up: Upstream ::
              Come(x, show, n, cap, window, size, u, i) && Cooperates(hash, show, window, size, up) && i < last ==>
                TriesOne(hash, x, show, policy, window, size, up, i)
                && Come(Settle(hash, x, show, policy, window, up), show, n, cap, window, size, u, i + 1)
  {
    forall x: World, i: nat, up: Upstream
      | Come(x, show, n, cap, window, size, u, i) && Cooperates(hash, show, window, size, up) && i < last
      ensures TriesOne(hash, x, show, policy, window, size, up, i)
      ensures Come(Settle(hash, x, show, policy, window, up), show, n, cap, window, size, u, i + 1)
    {
      ComeAndTry(hash, x, show, n, cap, window, size, up, u, i, i - (n - 1));
    }
  }

  lemma ComeInTurn(
    hash: Download.Bytes -> Hash, w: World, show: ShowSlug, n: nat, cap: nat, window: seq<EpisodeId>,
    size: EpisodeId -> nat, ups: seq<Upstream>, u: nat, k: nat, last: nat, policy: Policy)
    requires n > 0 && last == n - 1 + u && last <= |window| && policy == Policy(Some(n), Some(cap))
    requires Come(w, show, n, cap, window, size, u, k) && AllCooperate(hash, show, window, size, ups)
    ensures TriesInTurn(hash, w, show, policy, window, size, ups, k, last)
  {
    ComeAlways(hash, show, n, cap, window, size, u, last, policy);
    TriesByInvariant(
      hash, w, show, policy, window, size, ups, k, last,
      (x: World, i: nat) => Come(x, show, n, cap, window, size, u, i), (up: Upstream) => Cooperates(hash, show, window, size, up));
  }

  lemma StagesTry(
    hash: Download.Bytes -> Hash, w: World, show: ShowSlug, n: nat, cap: nat, window: seq<EpisodeId>,
    size: EpisodeId -> nat, ups: seq<Upstream>, u: nat, j: nat, k: nat, last: nat)
    requires n >= 2 && Laden(n, cap, window, size, u) && Stage(w.table, show, n, window, size, u, j) && j <= u
    requires AllCooperate(hash, show, window, size, ups) && k == n - 1 + j && last == n - 1 + u
    ensures TriesInTurn(hash, w, show, Policy(Some(n), Some(cap)), window, size, ups, k, last)
  {
    ComeInTurn(hash, w, show, n, cap, window, size, ups, u, k, last, Policy(Some(n), Some(cap)));
  }

  lemma StagesAreActive(
    hash: Download.Bytes -> Hash, w: World, show: ShowSlug, n: nat, cap: nat, window: seq<EpisodeId>,
    size: EpisodeId -> nat, ups: seq<Upstream>, u: nat, j: nat)
    requires n >= 2 && Laden(n, cap, window, size, u) && Stage(w.table, show, n, window, size, u, j) && j <= u
    requires AllCooperate(hash, show, window, size, ups)
    requires j + |ups| <= u + if n - 1 + u < |window| then 1 else 0
    ensures ActiveCount(hash, w, show, Policy(Some(n), Some(cap)), window, ups) == |ups|
  {
    var ws := StagesChain(hash, w, show, n, cap, window, size, ups, u, j);
    ChainCounts(hash, ws, show, Policy(Some(n), Some(cap)), window, ups);
  }

  /** Each further cycle fetches, measures and prunes exactly one more, and so counts as active;
      a last one fetches what has no size at all. */
  lemma EveryCycleTriesAnother(
    hash: Download.Bytes -> Hash, w: World, show: ShowSlug, n: nat, cap: nat, window: seq<EpisodeId>,
    size: EpisodeId -> nat, ups: seq<Upstream>, u: nat, j: nat, k: nat, last: nat)
    requires n >= 2 && Laden(n, cap, window, size, u) && Stage(w.table, show, n, window, size, u, j) && j <= u
    requires AllCooperate(hash, show, window, size, ups) && k == n - 1 + j && last == n - 1 + u
    requires j + |ups| <= u + if last < |window| then 1 else 0
    ensures TriesInTurn(hash, w, show, Policy(Some(n), Some(cap)), window, size, ups, k, last)
    ensures ActiveCount(hash, w, show, Policy(Some(n), Some(cap)), window, ups) == |ups|
  {
    StagesTry(hash, w, show, n, cap, window, size, ups, u, j, k, last);
    StagesAreActive(hash, w, show, n, cap, window, size, ups, u, j);
  }
}
