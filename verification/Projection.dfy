/** When one cycle is enough to correct a plan made with projected sizes. */
module Projection {
  import opened Wrappers
  import opened Domain
  import opened Retention
  import opened Episodes
  import Download
  import opened World
  import opened Rows
  import opened Convergence
  import opened Resync

  // ----- the planner -----

  lemma OnlyEntry(k: seq<Candidate>)
    requires |k| == 1
    ensures Retention.Bytes(k) == k[0].bytes
  {
    BytesAppend([], k[0]);
    assert k == [] + [k[0]];
  }

  /** Under a byte cap alone, an episode projected at no size is rejected only behind a newest
      episode that exceeds the cap by itself. */
  lemma UnknownRejected(cap: nat, cs: seq<Candidate>, i: nat)
    requires i < |cs| && cs[i].bytes == 0 && !Choice(Policy(None, Some(cap)), cs)[i]
    ensures i > 0 && cs[0].bytes > cap
  {
    var policy := Policy(None, Some(cap));
    assert cs[..0] == [];
    ChoiceAt(policy, cs, i);
    var k := Kept(policy, cs[..i]);
    KeptFeasible(policy, cs[..i]);
    BytesAppend(k, cs[i]);
    assert |k + [cs[i]]| == |k| + 1;
    if i > 0 {
      NewestKept(policy, cs[..i]);
      assert k[0] == cs[0] && |k| == 1;
      OnlyEntry(k);
    }
  }

  /** Behind such a newest episode nothing else is kept. */
  lemma OversizedKeepsOne(cap: nat, cs: seq<Candidate>)
    requires cs != [] && cs[0].bytes > cap
    ensures Kept(Policy(None, Some(cap)), cs) == [cs[0]]
  {
    var policy := Policy(None, Some(cap));
    KeptFirst(policy, cs[0]);
    forall c: Candidate ensures !Feasible(policy, [cs[0]] + [c]) { BytesAppend([cs[0]], c); }
    RejectedTail(policy, [cs[0]], cs[1..]);
    assert cs == [cs[0]] + cs[1..];
  }

  // ----- one sync -----

  /** Recorded sizes never change, and only what was wanted gets one. */
  lemma SizesAfter(
    hash: Download.Bytes -> Hash, w: World, show: ShowSlug, policy: Policy, window: seq<EpisodeId>, size: EpisodeId -> nat,
    up: Upstream, id: EpisodeId)
    requires Steady(w.table, show, window, size) && Cooperates(hash, show, window, size, up) && id in window
    ensures var t' := Settle(hash, w, show, policy, window, up).table;
            && (SizeKnown(t', show, id) <==> SizeKnown(w.table, show, id) || id in Wanted(w.table, show, policy, window))
            && (SizeKnown(w.table, show, id) ==> SizeOf(t', Key(show, id)) == SizeOf(w.table, Key(show, id)))
  {
    FetchedRow(hash, w, show, policy, window, size, up, id);
    SettledRow(hash, w, show, policy, window, up, id);
  }

  lemma WantedAt(t: Table, show: ShowSlug, policy: Policy, window: seq<EpisodeId>, i: nat)
    requires Distinct(window) && i < |window|
    ensures window[i] in Wanted(t, show, policy, window) <==> Choice(policy, Candidates(t, show, window))[i]
  {
    var cs := Candidates(t, show, window);
    KeptIds(policy, cs);
    assert Ids(cs) == window;
    if Choice(policy, cs)[i] { SelectSelects(window, Choice(policy, cs), i); }
    else {
      SelectSelects(window, Not(Choice(policy, cs)), i);
      SelectMembers(window, Choice(policy, cs), window[i]);
    }
  }

  /** Policies whose byte cap, if any, never decides what a count limit keeps: at most one episode
      is kept, or the cap has room for as many of the largest recordable files as the count
      allows. */
  predicate CountDecides(policy: Policy) {
    policy.keepLast.Some?
    && (policy.maxBytes.None? || policy.keepLast.value <= 1 || policy.maxBytes.value >= policy.keepLast.value * MAX_INTEGER)
  }

  lemma {:induction false} BoundedBytes(cs: seq<Candidate>)
    requires forall i :: 0 <= i < |cs| ==> cs[i].bytes <= MAX_INTEGER
    ensures Retention.Bytes(cs) <= |cs| * MAX_INTEGER
  {
    if cs != [] { BoundedBytes(cs[..|cs| - 1]); }
  }

  lemma RoomForCount(n: nat, m: nat, cap: nat)
    requires m <= n && cap >= n * MAX_INTEGER
    ensures m * MAX_INTEGER <= cap
  {
  }

  /** Under such a policy the newest episodes are kept, whatever their sizes. */
  lemma TakesNewest(policy: Policy, cs: seq<Candidate>)
    requires CountDecides(policy) && forall i :: 0 <= i < |cs| ==> cs[i].bytes <= MAX_INTEGER
    ensures Kept(policy, cs) == Take(cs, policy.keepLast.value)
  {
    var n := policy.keepLast.value;
    if policy.maxBytes.None? {
      CountOnlyKeepsNewest(n, cs);
    } else if n <= 1 {
      CountTakesPrefix(n, policy.maxBytes, cs);
      if cs != [] { NewestKept(Policy(None, policy.maxBytes), cs); }
    } else {
      var first := Take(cs, n);
      BoundedBytes(first);
      RoomForCount(n, |first|, policy.maxBytes.value);
      FeasibleKeepsAll(policy, first);
      RejectedTail(policy, first, cs[|first|..]);
      assert cs == first + cs[|first|..];
    }
  }

  lemma SizesClamped(
    hash: Download.Bytes -> Hash, t: Table, show: ShowSlug, window: seq<EpisodeId>, size: EpisodeId -> nat, up: Upstream)
    requires Steady(t, show, window, size) && Cooperates(hash, show, window, size, up)
    ensures forall i :: 0 <= i < |window| ==> SizeOf(t, Key(show, window[i])) <= MAX_INTEGER
  {
    forall i | 0 <= i < |window| ensures SizeOf(t, Key(show, window[i])) <= MAX_INTEGER {
      assert window[i] in window;
    }
  }

  /** So sizes do not matter to what such a policy wants. */
  lemma WantedByCount(t: Table, t': Table, show: ShowSlug, policy: Policy, window: seq<EpisodeId>)
    requires CountDecides(policy)
    requires forall i :: 0 <= i < |window| ==> SizeOf(t, Key(show, window[i])) <= MAX_INTEGER
    requires forall i :: 0 <= i < |window| ==> SizeOf(t', Key(show, window[i])) <= MAX_INTEGER
    ensures Wanted(t, show, policy, window) == Wanted(t', show, policy, window)
  {
    var cs, cs' := Candidates(t, show, window), Candidates(t', show, window);
    TakesNewest(policy, cs);
    TakesNewest(policy, cs');
    assert Ids(Take(cs, policy.keepLast.value)) == Ids(Take(cs', policy.keepLast.value));
  }

  lemma WantedWithoutLimits(t: Table, t': Table, show: ShowSlug, window: seq<EpisodeId>)
    ensures Wanted(t, show, Policy(None, None), window) == Wanted(t', show, Policy(None, None), window)
  {
    NoLimitKeepsAll(Candidates(t, show, window));
    NoLimitKeepsAll(Candidates(t', show, window));
    assert Ids(Candidates(t, show, window)) == Ids(Candidates(t', show, window));
  }

  lemma UnknownBehindOversized(t: Table, show: ShowSlug, cap: nat, window: seq<EpisodeId>, i: nat)
    requires Distinct(window) && i < |window| && SizeOf(t, Key(show, window[i])) == 0
    requires window[i] !in Wanted(t, show, Policy(None, Some(cap)), window)
    ensures i > 0 && SizeOf(t, Key(show, window[0])) > cap
  {
    WantedAt(t, show, Policy(None, Some(cap)), window, i);
    UnknownRejected(cap, Candidates(t, show, window), i);
  }

  lemma OversizedRejects(t: Table, show: ShowSlug, cap: nat, window: seq<EpisodeId>, i: nat)
    requires Distinct(window) && 0 < i < |window| && SizeOf(t, Key(show, window[0])) > cap
    ensures window[i] !in Wanted(t, show, Policy(None, Some(cap)), window)
  {
    OversizedKeepsOne(cap, Candidates(t, show, window));
    WantedInWindow(t, show, Policy(None, Some(cap)), window);
    assert window[0] != window[i];
  }

  /** Under a byte cap alone, an episode of unknown size that is not wanted now will not be
      wanted after the sync. */
  lemma RejectedStaysRejected(
    hash: Download.Bytes -> Hash, w: World, show: ShowSlug, cap: nat, window: seq<EpisodeId>, size: EpisodeId -> nat,
    up: Upstream, i: nat)
    requires Steady(w.table, show, window, size) && Cooperates(hash, show, window, size, up) && i < |window|
    requires !SizeKnown(w.table, show, window[i])
    requires window[i] !in Wanted(w.table, show, Policy(None, Some(cap)), window)
    ensures var t' := Settle(hash, w, show, Policy(None, Some(cap)), window, up).table;
            window[i] !in Wanted(t', show, Policy(None, Some(cap)), window)
  {
    WindowRows(w.table, show, window);
    UnknownBehindOversized(w.table, show, cap, window, i);
    assert window[0] in window;
    SizesAfter(hash, w, show, Policy(None, Some(cap)), window, size, up, window[0]);
    OversizedRejects(Settle(hash, w, show, Policy(None, Some(cap)), window, up).table, show, cap, window, i);
  }

  /** Policies under which one cooperative sync corrects the projected sizes: no count limit, or
      one that decides alone. */
  predicate OneCycleEnough(policy: Policy) {
    policy.keepLast.None? || CountDecides(policy)
  }

  /** Under such a policy the sync after a cooperative one wants no unknown size any more. */
  lemma OneCycleCorrects(
    hash: Download.Bytes -> Hash, w: World, show: ShowSlug, policy: Policy, window: seq<EpisodeId>, size: EpisodeId -> nat, up: Upstream)
    requires Steady(w.table, show, window, size) && Cooperates(hash, show, window, size, up)
    requires OneCycleEnough(policy)
    ensures WantsKnown(Settle(hash, w, show, policy, window, up).table, show, policy, window)
  {
    var t' := Settle(hash, w, show, policy, window, up).table;
    WantedInWindow(t', show, policy, window);
    if CountDecides(policy) {
      SettleKeepsSteady(hash, w, show, policy, window, size, up);
      SizesClamped(hash, w.table, show, window, size, up);
      SizesClamped(hash, t', show, window, size, up);
      WantedByCount(w.table, t', show, policy, window);
    } else if policy.maxBytes.None? {
      WantedWithoutLimits(w.table, t', show, window);
    }
    forall id | id in Wanted(t', show, policy, window) ensures SizeKnown(t', show, id) {
      SizesAfter(hash, w, show, policy, window, size, up, id);
      if policy.keepLast.None? && policy.maxBytes.Some? {
        var i :| 0 <= i < |window| && window[i] == id;
        StillKnown(hash, w, show, policy.maxBytes.value, window, size, up, i);
      }
    }
  }

  lemma StillKnown(
    hash: Download.Bytes -> Hash, w: World, show: ShowSlug, cap: nat, window: seq<EpisodeId>, size: EpisodeId -> nat,
    up: Upstream, i: nat)
    requires Steady(w.table, show, window, size) && Cooperates(hash, show, window, size, up) && i < |window|
    ensures var t' := Settle(hash, w, show, Policy(None, Some(cap)), window, up).table;
            window[i] in Wanted(t', show, Policy(None, Some(cap)), window) ==>
              SizeKnown(w.table, show, window[i]) || window[i] in Wanted(w.table, show, Policy(None, Some(cap)), window)
  {
    if !SizeKnown(w.table, show, window[i]) && window[i] !in Wanted(w.table, show, Policy(None, Some(cap)), window) {
      RejectedStaysRejected(hash, w, show, cap, window, size, up, i);
    }
  }

  /** So under such a policy at most two settling passes download or prune anything. */
  lemma TwoPassesSuffice(
    hash: Download.Bytes -> Hash, w: World, show: ShowSlug, policy: Policy, window: seq<EpisodeId>, size: EpisodeId -> nat, ups: seq<Upstream>)
    requires Steady(w.table, show, window, size)
    requires forall i :: 0 <= i < |ups| ==> Cooperates(hash, show, window, size, ups[i])
    requires OneCycleEnough(policy)
    ensures ActiveCount(hash, w, show, policy, window, ups) <= 2
  {
    if ups != [] {
      CountStepsBack(hash, w, show, policy, window, ups);
      SettleKeepsSteady(hash, w, show, policy, window, size, ups[0]);
      OneCycleCorrects(hash, w, show, policy, window, size, ups[0]);
      AtMostOneMore(hash, Settle(hash, w, show, policy, window, ups[0]), show, policy, window, size, ups[1..]);
    }
  }

  lemma AtMostOneMore(
    hash: Download.Bytes -> Hash, w: World, show: ShowSlug, policy: Policy, window: seq<EpisodeId>, size: EpisodeId -> nat, ups: seq<Upstream>)
    requires Steady(w.table, show, window, size) && WantsKnown(w.table, show, policy, window)
    requires forall i :: 0 <= i < |ups| ==> Cooperates(hash, show, window, size, ups[i])
    ensures ActiveCount(hash, w, show, policy, window, ups) <= 1
  {
    if ups != [] {
      CountStepsBack(hash, w, show, policy, window, ups);
      NothingAfterKnownSizes(hash, w, show, policy, window, size, ups);
    }
  }

  /** At the level of whole syncs: against an unchanged listing and a cooperative upstream, such a
      policy has at most two syncs report a download or a pruning. */
  lemma {:induction false} TwoSyncsSuffice(
    hash: Download.Bytes -> Hash, w: World, show: ShowSlug, policy: Policy, limit: Option<nat>, listing: Listing,
    size: EpisodeId -> nat, ups: seq<Upstream>)
    requires Unchanged(w.table, show, listing)
    requires Steady(w.table, show, SteadyWindow(w.table, show, limit, listing), size)
    requires Favourable(hash, show, SteadyWindow(w.table, show, limit, listing), size, listing, ups)
    requires OneCycleEnough(policy)
    ensures ActiveSyncs(hash, w, show, policy, limit, ups) <= 2
  {
    SyncsAreSettles(hash, w, show, policy, limit, listing, size, ups);
    TwoPassesSuffice(hash, w, show, policy, SteadyWindow(w.table, show, limit, listing), size, ups);
  }
}
