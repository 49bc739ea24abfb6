/** Concrete libraries in which planning with projected sizes takes cycle after cycle, and the
    exact policies for which one cycle is enough. */
module LongRuns {
  import opened Wrappers
  import opened Domain
  import opened Timestamps
  import opened Order
  import opened Retention
  import opened Episodes
  import opened Media
  import opened Download
  import opened World
  import opened Convergence
  import opened Resync
  import opened Projection
  import opened Cycles

  // ----- episodes -----

  function Repeated(k: nat): (s: string)
    ensures |s| == k && forall i :: 0 <= i < k ==> s[i] == 'a'
  {
    seq(k, _ => 'a')
  }

  /** `m` undated episodes in stored order, the longest name newest. */
  function Names(m: nat): (ids: seq<EpisodeId>)
    ensures |ids| == m && forall i :: 0 <= i < m ==> ids[i] == Repeated(m - i)
  {
    seq(m, i requires 0 <= i < m => Repeated(m - i))
  }

  lemma {:induction false} RepeatedOrder(j: nat, k: nat)
    requires j < k
    ensures TextLess(Repeated(j), Repeated(k))
  {
    if j > 0 {
      RepeatedOrder(j - 1, k - 1);
      assert Repeated(j)[1..] == Repeated(j - 1) && Repeated(k)[1..] == Repeated(k - 1);
    }
  }

  lemma NamesOrdered(t: Table, show: ShowSlug, m: nat)
    requires forall id: EpisodeId :: Key(show, id) in t <==> id in Names(m)
    requires forall id: EpisodeId :: Key(show, id) in t ==> t[Key(show, id)].data.publishedAt.None?
    ensures Ordered(t, show) == Names(m)
  {
    var stamps, ids := StampsOf(t, show), Names(m);
    forall i | 0 <= i < m ensures ids[i] in stamps && stamps[ids[i]].None? {
      assert ids[i] in ids;
    }
    forall i, j | 0 <= i < j < m ensures Before(stamps, ids[i], ids[j]) {
      RepeatedOrder(m - j, m - i);
    }
    SortedUnique(stamps, ids);
  }

  function Metas(m: nat): (listing: seq<EpisodeMeta>)
    ensures |listing| == m
    ensures forall i :: 0 <= i < m ==> listing[i] == EpisodeMeta(Names(m)[i], "", None, None, None)
  {
    seq(m, i requires 0 <= i < m => EpisodeMeta(Names(m)[i], "", None, None, None))
  }

  /** The table after listing the episodes for the first time. */
  ghost function Begun(show: ShowSlug, m: nat): Table {
    Discover(map[], show, Metas(m), Epoch())
  }

  lemma BegunRow(show: ShowSlug, m: nat, key: Key)
    ensures key in Begun(show, m) <==> key.show == show && key.id in Names(m)
    ensures key in Begun(show, m) ==>
              var r := Begun(show, m)[key];
              r.state == Discovered && RowOk(r) && r.data.bytes.None? && r.data.publishedAt.None?
  {
    DiscoverRow(map[], show, Metas(m), Epoch(), key);
    if key.show == show && key.id in Names(m) {
      var i :| 0 <= i < m && Names(m)[i] == key.id;
      assert Metas(m)[i].id == key.id;
    }
    if Lists(Metas(m), key.id) {
      var i :| 0 <= i < m && Metas(m)[i].id == key.id;
      assert Names(m)[i] == key.id;
      NamesDistinct(m);
      DiscoverAbsorbs(map[], show, Metas(m), Epoch());
      assert AbsorbedRow(Begun(show, m), show, Metas(m)[i]);
    }
  }

  lemma NamesDistinct(m: nat)
    ensures Distinct(Names(m)) && ListedIds(Metas(m)) == Names(m)
  {
    forall i, j | 0 <= i < j < m ensures Names(m)[i] != Names(m)[j] {
      assert |Names(m)[i]| == m - i && |Names(m)[j]| == m - j;
    }
  }

  // ----- sizes -----

  /** What is left of a cap after `i` files that each take as much of it as one file can. */
  function Left(cap: nat, i: nat): nat {
    if i == 0 then cap else Left(cap, i - 1) - Clamp(Left(cap, i - 1))
  }

  lemma {:induction false} LeftIs(cap: nat, i: nat)
    ensures Left(cap, i) == if cap >= i * MAX_INTEGER then cap - i * MAX_INTEGER else 0
  {
    if i > 0 { LeftIs(cap, i - 1); }
  }

  /** The newest `n - 1` fill the cap, the next `u` are as large as a file can be, the rest empty. */
  function SizeAt(n: nat, cap: nat, u: nat, i: nat): nat {
    if i + 1 < n then Clamp(Left(cap, i)) else if i + 1 < n + u then MAX_INTEGER else 0
  }

  function Sizes(n: nat, cap: nat, u: nat, m: nat): EpisodeId -> nat {
    (id: EpisodeId) => if |id| <= m then SizeAt(n, cap, u, m - |id|) else 0
  }

  lemma SizesOfNames(n: nat, cap: nat, u: nat, m: nat, i: nat)
    requires i < m
    ensures Sizes(n, cap, u, m)(Names(m)[i]) == SizeAt(n, cap, u, i)
  {
    assert |Names(m)[i]| == m - i;
  }

  lemma SizedLast(ids: seq<EpisodeId>, size: EpisodeId -> nat, i: nat)
    requires i < |ids|
    ensures Retention.Bytes(Sized(ids[..i + 1], size)) == Retention.Bytes(Sized(ids[..i], size)) + size(ids[i])
  {
    BytesAppend(Sized(ids[..i], size), Candidate(ids[i], size(ids[i])));
    assert Sized(ids[..i + 1], size) == Sized(ids[..i], size) + [Candidate(ids[i], size(ids[i]))];
  }

  lemma {:induction false} BaseBytes(n: nat, cap: nat, u: nat, m: nat, i: nat)
    requires 0 < n <= m && i < n
    ensures Retention.Bytes(Sized(Names(m)[..i], Sizes(n, cap, u, m))) == cap - Left(cap, i)
    ensures Left(cap, i) <= cap
  {
    var ids, size := Names(m), Sizes(n, cap, u, m);
    if i > 0 {
      BaseBytes(n, cap, u, m, i - 1);
      SizesOfNames(n, cap, u, m, i - 1);
      SizedLast(ids, size, i - 1);
      assert size(ids[i - 1]) == Clamp(Left(cap, i - 1));
    }
  }

  lemma LadenNames(n: nat, cap: nat, u: nat, m: nat)
    requires n >= 2 && cap < n * MAX_INTEGER && n - 1 + u <= m && n <= m
    ensures Laden(n, cap, Names(m), Sizes(n, cap, u, m), u)
  {
    var size := Sizes(n, cap, u, m);
    BaseBytes(n, cap, u, m, n - 1);
    LeftIs(cap, n - 1);
    forall k | n - 1 <= k < n - 1 + u ensures Overfull(n, cap, Names(m), size, k) { SizesOfNames(n, cap, u, m, k); }
    forall k | n - 1 + u <= k < m ensures size(Names(m)[k]) == 0 { SizesOfNames(n, cap, u, m, k); }
  }

  // ----- an upstream that serves everything -----

  function Zeros(n: nat): (b: Download.Bytes)
    ensures |b| == n
  {
    seq(n, _ => 0)
  }

  /** An exchange that delivers `n` bytes at once and without fault. */
  function Whole(n: nat): Exchange {
    Exchange(true, 200, None, None, true, Done, true, [Chunk(Zeros(n), true)], false, true, Done)
  }

  lemma WholeBody(n: nat)
    ensures Body(Whole(n)) == Zeros(n)
  {
    var chunks := [Chunk(Zeros(n), true)];
    assert chunks[..0] == [] && Concat([]) == [] && [] + Zeros(n) == Zeros(n);
    assert Concat(chunks) == Concat(chunks[..0]) + Zeros(n);
  }

  ghost function Serving(listing: Listing, size: EpisodeId -> nat): Upstream {
    Upstream(
      Success(listing), Success(()), (id: EpisodeId) => Success(Audio("", None, None)),
      (id: EpisodeId) => [Whole(size(id)), Whole(size(id)), Whole(size(id))], (id: EpisodeId) => None,
      (id: EpisodeId) => Epoch(), Epoch(), Epoch(), (p: Path) => false, (p: Path) => false, (p: Path) => false)
  }

  lemma ServingDelivers(hash: Download.Bytes -> Hash, listing: Listing, size: EpisodeId -> nat, key: Key)
    ensures var got := Fetched(hash, key, Serving(listing, size));
            got.Success? && got.value.file.bytes == size(key.id)
  {
    WholeBody(size(key.id));
    assert AllWritten(Whole(size(key.id)).chunks);
    assert Complete(Audio("", None, None), Whole(size(key.id)));
  }

  lemma ServingCooperates(
    hash: Download.Bytes -> Hash, show: ShowSlug, listing: Listing, n: nat, cap: nat, u: nat, m: nat)
    ensures Cooperates(hash, show, Names(m), Sizes(n, cap, u, m), Serving(listing, Sizes(n, cap, u, m)))
  {
    var size := Sizes(n, cap, u, m);
    forall id | id in Names(m)
      ensures var got := Fetched(hash, Key(show, id), Serving(listing, size));
              got.Success? && Clamp(got.value.file.bytes) == size(id)
    {
      ServingDelivers(hash, listing, size, Key(show, id));
    }
  }

  // ----- from an empty library -----

  /** The row, if it is there, is a window row at rest whose size, if known, is the true one. */
  ghost predicate AtRest(t: Table, show: ShowSlug, window: seq<EpisodeId>, size: EpisodeId -> nat, id: EpisodeId) {
    var key := Key(show, id);
    && (key in t <==> id in window)
    && (key in t ==>
          && !t[key].state.Downloading? && t[key].data.publishedAt.None?
          && (IsCached(t, key) ==> t[key].data.bytes.Some?)
          && (t[key].data.bytes.Some? ==> t[key].data.bytes.value == size(id)))
  }

  lemma RestingIsSteady(t: Table, show: ShowSlug, m: nat, size: EpisodeId -> nat)
    requires forall id: EpisodeId :: AtRest(t, show, Names(m), size, id)
    ensures Steady(t, show, Names(m), size) && Ordered(t, show) == Names(m)
  {
    forall id: EpisodeId
      ensures Key(show, id) in t <==> id in Names(m)
      ensures Key(show, id) in t ==> t[Key(show, id)].data.publishedAt.None?
    {
      assert AtRest(t, show, Names(m), size, id);
    }
    NamesOrdered(t, show, m);
    RestingRows(t, show, Names(m), size);
  }

  lemma RestingRows(t: Table, show: ShowSlug, window: seq<EpisodeId>, size: EpisodeId -> nat)
    requires Ordered(t, show) == window && forall id: EpisodeId :: AtRest(t, show, window, size, id)
    ensures Steady(t, show, window, size)
  {
    forall id: EpisodeId
      ensures id in window ==>
                Key(show, id) in t && (t[Key(show, id)].data.bytes.Some? ==> t[Key(show, id)].data.bytes.value == size(id))
      ensures Key(show, id) in t ==> !t[Key(show, id)].state.Downloading?
      ensures IsCached(t, Key(show, id)) ==> t[Key(show, id)].data.bytes.Some?
    {
      assert AtRest(t, show, window, size, id);
    }
  }

  lemma BegunIsBlank(show: ShowSlug, n: nat, cap: nat, u: nat, m: nat)
    requires 0 < n <= m
    ensures Blank(Begun(show, m), show, n, Names(m), Sizes(n, cap, u, m))
  {
    var t, size := Begun(show, m), Sizes(n, cap, u, m);
    forall id: EpisodeId ensures AtRest(t, show, Names(m), size, id) { BegunRow(show, m, Key(show, id)); }
    RestingIsSteady(t, show, m, size);
    forall i | 0 <= i < m ensures !IsCached(t, Key(show, Names(m)[i])) && !SizeKnown(t, show, Names(m)[i]) {
      BegunRow(show, m, Key(show, Names(m)[i]));
    }
  }

  /** With both limits set, more than one episode allowed and a cap that can bind, one cooperative
      sync of a freshly listed show leaves the next one wanting an unknown size again. */
  lemma OneCycleFails(hash: Download.Bytes -> Hash, show: ShowSlug, n: nat, cap: nat)
    requires n >= 2 && cap < n * MAX_INTEGER
    ensures var m, size := n + 1, Sizes(n, cap, 2, n + 1);
            var w, up := World(Begun(show, m), map[]), Serving(NotModified, size);
            && Steady(w.table, show, Names(m), size) && Cooperates(hash, show, Names(m), size, up)
            && !WantsKnown(Settle(hash, w, show, Policy(Some(n), Some(cap)), Names(m), up).table,
                           show, Policy(Some(n), Some(cap)), Names(m))
  {
    var m, size := n + 1, Sizes(n, cap, 2, n + 1);
    var w, up := World(Begun(show, m), map[]), Serving(NotModified, size);
    BegunIsBlank(show, n, cap, 2, m);
    LadenNames(n, cap, 2, m);
    ServingCooperates(hash, show, NotModified, n, cap, 2, m);
    BlankStep(hash, w, show, n, cap, Names(m), size, up, 2);
    StillWants(Settle(hash, w, show, Policy(Some(n), Some(cap)), Names(m), up).table, show, n, cap, Names(m), size);
  }

  lemma StillWants(t: Table, show: ShowSlug, n: nat, cap: nat, window: seq<EpisodeId>, size: EpisodeId -> nat)
    requires n >= 2 && |window| == n + 1
    requires Laden(n, cap, window, size, 2) && Stage(t, show, n, window, size, 2, 1)
    ensures !WantsKnown(t, show, Policy(Some(n), Some(cap)), window)
  {
    StageIsTrap(t, show, n, cap, window, size, 2, 1);
    SceneWants(t, show, n, cap, window, size, 1, n);
    assert !SizeKnown(t, show, window[n]);
  }

  /** The policies whose projected sizes one cooperative sync corrects in every steady library are
      exactly those with no count limit and those whose count limit decides alone: no byte cap,
      at most one episode, or a cap with room for the count of the largest recordable files. */
  lemma OneCycleExactly(policy: Policy)
    ensures OneCycleEnough(policy) <==>
              forall hash: Download.Bytes -> Hash, w: World, show: ShowSlug, window: seq<EpisodeId>,
                     size: EpisodeId -> nat, up: Upstream ::
                Steady(w.table, show, window, size) && Cooperates(hash, show, window, size, up) ==>
                  WantsKnown(Settle(hash, w, show, policy, window, up).table, show, policy, window)
  {
    if OneCycleEnough(policy) {
      forall hash: Download.Bytes -> Hash, w: World, show: ShowSlug, window: seq<EpisodeId>, size: EpisodeId -> nat, up: Upstream
        | Steady(w.table, show, window, size) && Cooperates(hash, show, window, size, up)
        ensures WantsKnown(Settle(hash, w, show, policy, window, up).table, show, policy, window)
      {
        OneCycleCorrects(hash, w, show, policy, window, size, up);
      }
    } else {
      OneCycleFails((b: Download.Bytes) => 0, "a", policy.keepLast.value, policy.maxBytes.value);
    }
  }

  // ----- as many active syncs as one likes -----

  /** To an empty library `up` lists `listing`, which makes its table `t`. */
  ghost predicate Opens(show: ShowSlug, t: Table, listing: seq<EpisodeMeta>, up: Upstream) {
    && up.listing == Success(Modified(listing)) && up.meta.Success?
    && Listed(map[], show, up) == t
  }

  /** The first sync of an empty library lists the episodes and settles them. */
  lemma OpeningSync(
    hash: Download.Bytes -> Hash, show: ShowSlug, policy: Policy, t: Table, listing: seq<EpisodeMeta>, up: Upstream)
    requires Opens(show, t, listing, up)
    ensures Synced(hash, World(map[], map[]), show, policy, None, up)
            == Settle(hash, World(t, map[]), show, policy, ListedIds(listing), up)
    ensures SyncActive(hash, World(map[], map[]), show, policy, None, up)
            <==> Active(hash, World(t, map[]), show, policy, ListedIds(listing), up)
  {
  }

  /** The syncs after the first, as a series of settling passes. */
  lemma LaterSyncs(
    hash: Download.Bytes -> Hash, w: World, show: ShowSlug, n: nat, cap: nat, window: seq<EpisodeId>,
    size: EpisodeId -> nat, ups: seq<Upstream>, u: nat, j: nat)
    requires n >= 2 && Laden(n, cap, window, size, u) && Stage(w.table, show, n, window, size, u, j) && j <= u
    requires Favourable(hash, show, window, size, NotModified, ups)
    requires j + |ups| <= u + if n - 1 + u < |window| then 1 else 0
    ensures ActiveSyncs(hash, w, show, Policy(Some(n), Some(cap)), None, ups) == |ups|
  {
    assert SteadyWindow(w.table, show, None, NotModified) == window;
    SyncsAreSettles(hash, w, show, Policy(Some(n), Some(cap)), None, NotModified, size, ups);
    EveryCycleTriesAnother(hash, w, show, n, cap, window, size, ups, u, j, n - 1 + j, n - 1 + u);
  }

  /** Syncs of a staged library that are told nothing new. */
  lemma StageRun(
    hash: Download.Bytes -> Hash, w: World, show: ShowSlug, n: nat, cap: nat, window: seq<EpisodeId>,
    size: EpisodeId -> nat, up: Upstream, u: nat, j: nat, k: nat)
    returns (ups: seq<Upstream>)
    requires n >= 2 && Laden(n, cap, window, size, u) && Stage(w.table, show, n, window, size, u, j) && j <= u
    requires up.listing == Success(NotModified) && Cooperates(hash, show, window, size, up)
    requires j + k <= u + if n - 1 + u < |window| then 1 else 0
    ensures |ups| == k && forall i :: 0 <= i < k ==> ups[i] == up
    ensures ActiveSyncs(hash, w, show, Policy(Some(n), Some(cap)), None, ups) == k
  {
    ups := AllTheSame(hash, show, window, size, up, k);
    LaterSyncs(hash, w, show, n, cap, window, size, ups, u, j);
  }

  lemma AllTheSame(
    hash: Download.Bytes -> Hash, show: ShowSlug, window: seq<EpisodeId>, size: EpisodeId -> nat, up: Upstream, k: nat)
    returns (ups: seq<Upstream>)
    requires up.listing == Success(NotModified) && Cooperates(hash, show, window, size, up)
    ensures |ups| == k && forall i :: 0 <= i < k ==> ups[i] == up
    ensures Favourable(hash, show, window, size, NotModified, ups)
  {
    ups := seq(k, _ => up);
  }

  lemma BlankRun(
    hash: Download.Bytes -> Hash, w: World, show: ShowSlug, n: nat, cap: nat, window: seq<EpisodeId>,
    size: EpisodeId -> nat, up: Upstream, u: nat)
    returns (w': World)
    requires n >= 2 && Laden(n, cap, window, size, u) && Blank(w.table, show, n, window, size)
    requires u > 0 && n - 1 + u == |window| && Cooperates(hash, show, window, size, up)
    ensures Active(hash, w, show, Policy(Some(n), Some(cap)), window, up)
    ensures w' == Settle(hash, w, show, Policy(Some(n), Some(cap)), window, up)
    ensures Stage(w'.table, show, n, window, size, u, 1)
  {
    BlankIsTrap(w.table, show, n, cap, window, size);
    SceneIsActive(hash, w, show, n, cap, window, size, up, 0, n - 1);
    BlankStep(hash, w, show, n, cap, window, size, up, u);
    w' := Settle(hash, w, show, Policy(Some(n), Some(cap)), window, up);
  }

  /** An empty library is told of `n - 1` episodes that fill the cap and `k` that do not fit. */
  lemma Opening(hash: Download.Bytes -> Hash, show: ShowSlug, n: nat, cap: nat, k: nat)
    returns (t: Table, listing: seq<EpisodeMeta>, size: EpisodeId -> nat, first: Upstream, later: Upstream)
    requires n >= 2 && cap < n * MAX_INTEGER && k > 0
    ensures |listing| == n - 1 + k && Laden(n, cap, ListedIds(listing), size, k)
    ensures Blank(t, show, n, ListedIds(listing), size) && Opens(show, t, listing, first)
    ensures Cooperates(hash, show, ListedIds(listing), size, first)
    ensures later.listing == Success(NotModified) && Cooperates(hash, show, ListedIds(listing), size, later)
  {
    var m := n - 1 + k;
    listing, size := Metas(m), Sizes(n, cap, k, m);
    t, first, later := Begun(show, m), Serving(Modified(listing), size), Serving(NotModified, size);
    NamesDistinct(m);
    BegunIsBlank(show, n, cap, k, m);
    LadenNames(n, cap, k, m);
    ServingCooperates(hash, show, Modified(listing), n, cap, k, m);
    ServingCooperates(hash, show, NotModified, n, cap, k, m);
    BegunOpens(show, m, size);
  }

  lemma BegunOpens(show: ShowSlug, m: nat, size: EpisodeId -> nat)
    ensures Opens(show, Begun(show, m), Metas(m), Serving(Modified(Metas(m)), size))
  {
    assert ResetStale(map[], show, Epoch()) == map[];
  }

  lemma CountsFirst(
    hash: Download.Bytes -> Hash, w: World, show: ShowSlug, policy: Policy, limit: Option<nat>, up: Upstream, later: seq<Upstream>)
    requires SyncActive(hash, w, show, policy, limit, up)
    ensures ActiveSyncs(hash, w, show, policy, limit, [up] + later)
            == 1 + ActiveSyncs(hash, Synced(hash, w, show, policy, limit, up), show, policy, limit, later)
  {
    assert ([up] + later)[1..] == later;
  }

  /** For every such policy and every `k` there is a listing of a show such that, of `k` syncs of a
      library that starts empty, every one downloads or prunes something, although the upstream
      lists nothing new after the first and serves everything. */
  lemma EveryLength(hash: Download.Bytes -> Hash, show: ShowSlug, n: nat, cap: nat, k: nat)
    returns (listing: seq<EpisodeMeta>, size: EpisodeId -> nat, ups: seq<Upstream>)
    requires n >= 2 && cap < n * MAX_INTEGER && k > 0
    ensures |ups| == k && forall i :: 0 <= i < k ==>
              && ups[i].listing == Success(if i == 0 then Modified(listing) else NotModified)
              && Cooperates(hash, show, ListedIds(listing), size, ups[i])
    ensures ActiveSyncs(hash, World(map[], map[]), show, Policy(Some(n), Some(cap)), None, ups) == k
  {
    var t, first, later;
    t, listing, size, first, later := Opening(hash, show, n, cap, k);
    var w := BlankRun(hash, World(t, map[]), show, n, cap, ListedIds(listing), size, first, k);
    OpeningSync(hash, show, Policy(Some(n), Some(cap)), t, listing, first);
    var rest := StageRun(hash, w, show, n, cap, ListedIds(listing), size, later, k, 1, k - 1);
    ups := [first] + rest;
    CountsFirst(hash, World(map[], map[]), show, Policy(Some(n), Some(cap)), None, first, rest);
  }

  // ----- the bound is reached -----

  /** The row of episode `i` in a library that held the newest ones and an empty old one. */
  ghost function PreparedRow(hash: Download.Bytes -> Hash, key: Key, r: Record, n: nat, cap: nat, u: nat, i: nat): Record {
    var size := SizeAt(n, cap, u, i);
    var file := CachedFile(PathText(key.show, Stem(key.id), "bin"), size, hash(Zeros(size)), None, None);
    if i + 1 < n then Record(Cached, Stored(r.data, file, Epoch()))
    else if i + 1 < n + u then r
    else Record(Pruned, Forgotten(Stored(r.data, file, Epoch())))
  }

  ghost function Prepared(hash: Download.Bytes -> Hash, show: ShowSlug, n: nat, cap: nat, u: nat, m: nat): Table {
    map key | key in Begun(show, m) ::
      if |key.id| <= m then PreparedRow(hash, key, Begun(show, m)[key], n, cap, u, m - |key.id|) else Begun(show, m)[key]
  }

  lemma PreparedAt(hash: Download.Bytes -> Hash, show: ShowSlug, n: nat, cap: nat, u: nat, m: nat, i: nat)
    requires n >= 2 && i < m
    ensures var t, key := Prepared(hash, show, n, cap, u, m), Key(show, Names(m)[i]);
            && key in t && RowOk(t[key]) && !t[key].state.Downloading? && t[key].data.publishedAt.None?
            && (IsCached(t, key) <==> i + 1 < n)
            && (SizeKnown(t, show, key.id) <==> i + 1 < n || i + 1 >= n + u)
            && (SizeKnown(t, show, key.id) ==> t[key].data.bytes.value == Sizes(n, cap, u, m)(key.id))
  {
    assert Names(m)[i] in Names(m) && |Names(m)[i]| == m - i;
    BegunRow(show, m, Key(show, Names(m)[i]));
    SizesOfNames(n, cap, u, m, i);
  }

  lemma PreparedKeys(hash: Download.Bytes -> Hash, show: ShowSlug, n: nat, cap: nat, u: nat, m: nat, key: Key)
    ensures key in Prepared(hash, show, n, cap, u, m) <==> key.show == show && key.id in Names(m)
  {
    BegunRow(show, m, key);
  }

  lemma PreparedRests(hash: Download.Bytes -> Hash, show: ShowSlug, n: nat, cap: nat, u: nat, m: nat, key: Key)
    requires n >= 2
    ensures key in Prepared(hash, show, n, cap, u, m) ==> RowOk(Prepared(hash, show, n, cap, u, m)[key])
    ensures key.show == show ==> AtRest(Prepared(hash, show, n, cap, u, m), show, Names(m), Sizes(n, cap, u, m), key.id)
  {
    PreparedKeys(hash, show, n, cap, u, m, key);
    if key in Prepared(hash, show, n, cap, u, m) {
      var i :| 0 <= i < m && Names(m)[i] == key.id;
      PreparedAt(hash, show, n, cap, u, m, i);
    }
  }

  lemma PreparedIsSteady(hash: Download.Bytes -> Hash, show: ShowSlug, n: nat, cap: nat, u: nat, m: nat)
    requires n >= 2
    ensures TableOk(Prepared(hash, show, n, cap, u, m)) && Ordered(Prepared(hash, show, n, cap, u, m), show) == Names(m)
    ensures Steady(Prepared(hash, show, n, cap, u, m), show, Names(m), Sizes(n, cap, u, m))
  {
    var t := Prepared(hash, show, n, cap, u, m);
    forall key | key in t ensures RowOk(t[key]) { PreparedRests(hash, show, n, cap, u, m, key); }
    forall id: EpisodeId ensures AtRest(t, show, Names(m), Sizes(n, cap, u, m), id) {
      PreparedRests(hash, show, n, cap, u, m, Key(show, id));
    }
    RestingIsSteady(t, show, m, Sizes(n, cap, u, m));
  }

  lemma PreparedIsStage(hash: Download.Bytes -> Hash, show: ShowSlug, n: nat, cap: nat, u: nat, m: nat)
    requires n >= 2 && m == n + u
    ensures Stage(Prepared(hash, show, n, cap, u, m), show, n, Names(m), Sizes(n, cap, u, m), u, 0)
  {
    var t := Prepared(hash, show, n, cap, u, m);
    PreparedIsSteady(hash, show, n, cap, u, m);
    forall i | 0 <= i < m
      ensures IsCached(t, Key(show, Names(m)[i])) <==> i < n - 1
      ensures SizeKnown(t, show, Names(m)[i]) <==> i < n - 1 || i >= n - 1 + u
    {
      PreparedAt(hash, show, n, cap, u, m, i);
    }
  }

  lemma {:induction false} DistinctCount(ids: seq<EpisodeId>)
    requires Distinct(ids)
    ensures |(set id | id in ids)| == |ids|
  {
    if ids != [] {
      var n := |ids| - 1;
      DistinctCount(ids[..n]);
      assert ids == ids[..n] + [ids[n]];
      assert (set id | id in ids) == (set id | id in ids[..n]) + {ids[n]};
    }
  }

  lemma SliceMember(ids: seq<EpisodeId>, a: nat, b: nat, i: nat)
    requires Distinct(ids) && a <= b <= |ids| && i < |ids|
    ensures ids[i] in ids[a..b] <==> a <= i < b
  {
    if a <= i < b { assert ids[a..b][i - a] == ids[i]; }
  }

  lemma StageUnknown(t: Table, show: ShowSlug, n: nat, window: seq<EpisodeId>, size: EpisodeId -> nat, u: nat)
    requires 0 < n && Stage(t, show, n, window, size, u, 0) && n - 1 + u <= |window| && Distinct(window)
    ensures |Unknown(t, show, window)| == u && Steady(t, show, window, size)
  {
    forall i | 0 <= i < |window| ensures !SizeKnown(t, show, window[i]) <==> n - 1 <= i < n - 1 + u {}
    SliceUnknown(t, show, window, n - 1, n - 1 + u);
  }

  lemma SliceUnknown(t: Table, show: ShowSlug, window: seq<EpisodeId>, a: nat, b: nat)
    requires Distinct(window) && a <= b <= |window|
    requires forall i :: 0 <= i < |window| ==> (!SizeKnown(t, show, window[i]) <==> a <= i < b)
    ensures |Unknown(t, show, window)| == b - a
  {
    var unknown := window[a..b];
    forall id ensures id in Unknown(t, show, window) <==> id in unknown {
      if id in window {
        var i :| 0 <= i < |window| && window[i] == id;
        SliceMember(window, a, b, i);
      }
    }
    DistinctCount(unknown);
    assert Unknown(t, show, window) == set id | id in unknown;
  }

  /** One sync more than there are unknown sizes, all of them active. */
  lemma StagedSyncs(
    hash: Download.Bytes -> Hash, t: Table, show: ShowSlug, n: nat, cap: nat, window: seq<EpisodeId>,
    size: EpisodeId -> nat, up: Upstream, u: nat, k: nat)
    returns (ups: seq<Upstream>)
    requires n >= 2 && k == u + 1 && |window| == n + u
    requires Laden(n, cap, window, size, u) && Stage(t, show, n, window, size, u, 0)
    requires up.listing == Success(NotModified) && Cooperates(hash, show, window, size, up)
    ensures |ups| == k && forall i :: 0 <= i < k ==>
              ups[i].listing == Success(NotModified) && Cooperates(hash, show, window, size, ups[i])
    ensures ActiveSyncs(hash, World(t, map[]), show, Policy(Some(n), Some(cap)), None, ups) == k
  {
    ups := StageRun(hash, World(t, map[]), show, n, cap, window, size, up, u, 0, k);
  }

  /** For every such policy and every `u` there is a steady library with `u` window rows of unknown
      size in which `u + 1` syncs in a row download something: the bound of
      RepeatedSyncsConverge is reached. */
  lemma BoundIsReached(hash: Download.Bytes -> Hash, show: ShowSlug, n: nat, cap: nat, u: nat)
    returns (t: Table, window: seq<EpisodeId>, size: EpisodeId -> nat, ups: seq<Upstream>)
    requires n >= 2 && cap < n * MAX_INTEGER
    ensures TableOk(t) && Steady(t, show, window, size) && |Unknown(t, show, window)| == u
    ensures |ups| == u + 1 && forall i :: 0 <= i < |ups| ==>
              ups[i].listing == Success(NotModified) && Cooperates(hash, show, window, size, ups[i])
    ensures ActiveSyncs(hash, World(t, map[]), show, Policy(Some(n), Some(cap)), None, ups) == u + 1
  {
    var up;
    t, window, size, up := PreparedStage(hash, show, n, cap, u);
    StageUnknown(t, show, n, window, size, u);
    ups := StagedSyncs(hash, t, show, n, cap, window, size, up, u, u + 1);
  }

  lemma PreparedStage(hash: Download.Bytes -> Hash, show: ShowSlug, n: nat, cap: nat, u: nat)
    returns (t: Table, window: seq<EpisodeId>, size: EpisodeId -> nat, up: Upstream)
    requires n >= 2 && cap < n * MAX_INTEGER
    ensures |window| == n + u && Distinct(window) && Laden(n, cap, window, size, u)
    ensures TableOk(t) && Stage(t, show, n, window, size, u, 0)
    ensures up.listing == Success(NotModified) && Cooperates(hash, show, window, size, up)
  {
    var m := n + u;
    t, window, size := Prepared(hash, show, n, cap, u, m), Names(m), Sizes(n, cap, u, m);
    up := Serving(NotModified, size);
    NamesDistinct(m);
    LadenNames(n, cap, u, m);
    ServingCooperates(hash, show, NotModified, n, cap, u, m);
    PreparedIsSteady(hash, show, n, cap, u, m);
    PreparedIsStage(hash, show, n, cap, u, m);
  }
}
