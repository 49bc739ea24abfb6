/** The items of a show's podcast feed. */
module Feed {
  import opened Wrappers
  import opened Domain
  import opened Timestamps
  import opened Retention
  import opened Episodes
  import opened Media
  import opened Download
  import opened World
  import opened Rows
  import opened Library
  import opened Agreement

  // ----- one item -----

  datatype Item = Item(
    guid: string, title: string, description: Option<string>, publishedAt: Option<Timestamp>,
    enclosure: (ShowSlug, string), enclosureBytes: nat, enclosureMime: string, durationSecs: Option<nat>)

  function Guid(provider: string, show: ShowSlug, id: EpisodeId): string {
    provider + ("/" + (show + ("/" + id)))
  }

  function AfterLastSlash(s: string): string {
    if s == "" || s[|s| - 1] == '/' then "" else AfterLastSlash(s[..|s| - 1]) + [s[|s| - 1]]
  }

  /** The last component of a path, if it names a file. A path that ends in a slash or a dot, which
      the standard library would shorten first, is never a media path. */
  function FileName(p: Path): Option<string> {
    var name := AfterLastSlash(p);
    if name == "" || name == "." || name == ".." then None else Some(name)
  }

  /** The item of a row, if it has one: only a cached row does, and only with a file name, a size
      and a base URL that can take path segments. */
  function ItemOf(provider: string, baseUsable: bool, show: ShowSlug, id: EpisodeId, r: Record): Option<Item> {
    var file := if r.data.filePath.Some? then FileName(r.data.filePath.value) else None;
    if !r.state.Cached? || file.None? || !baseUsable || r.data.bytes.None? then None
    else Some(Item(
      Guid(provider, show, id), r.data.title, r.data.description, r.data.publishedAt, (show, file.value),
      r.data.bytes.value,
      if r.data.mime.Some? then MimeText(ParseMime(r.data.mime.value)) else "application/octet-stream",
      r.data.durationSecs))
  }

  /** The items of a list of rows, in order. */
  function ItemsAt(t: Table, provider: string, baseUsable: bool, show: ShowSlug, ids: seq<EpisodeId>): seq<Item> {
    if ids == [] then []
    else
      var n := |ids| - 1;
      var key := Key(show, ids[n]);
      var item := if key in t then ItemOf(provider, baseUsable, show, ids[n], t[key]) else None;
      ItemsAt(t, provider, baseUsable, show, ids[..n]) + if item.Some? then [item.value] else []
  }

  /** The feed of a show: a function of its rows alone. */
  ghost function Items(t: Table, provider: string, baseUsable: bool, show: ShowSlug): seq<Item> {
    ItemsAt(t, provider, baseUsable, show, Ordered(t, show))
  }

  datatype FeedError = NoSuchShow | NotSynced

  /** Select and map the show's rows, newest first. */
  method WriteFeed(library: Library, slug: ShowSlug, recorded: bool, baseUsable: bool)
    returns (r: Result<seq<Item>, FeedError>)
    requires library.db.Valid()
    ensures r.Success? <==> FindShow(library.config.shows, slug).Some? && recorded
    ensures r.Success? ==>
              r.value == Items(library.db.table, FindShow(library.config.shows, slug).value.provider, baseUsable, slug)
    ensures r.Success? && !baseUsable ==> r.value == []
    ensures r.Success? && baseUsable && Agrees(library.hash, library.State()) ==>
              var w, provider, cached := library.State(), FindShow(library.config.shows, slug).value.provider,
                                         CachedInOrder(library.db.table, slug);
              && |r.value| == |cached|
              && forall k :: 0 <= k < |cached| ==>
                   Key(slug, cached[k]) in w.table && Describes(r.value[k], w, provider, Key(slug, cached[k]))
  {
    var found := FindShow(library.config.shows, slug);
    if found.None? { return Failure(NoSuchShow); }
    if !recorded { return Failure(NotSynced); }
    var provider := found.value.provider;
    var listed := library.db.EpisodesOf(slug);
    var records := listed.value;
    ghost var t, ids := library.db.table, Ordered(library.db.table, slug);
    RecordsLength(t, slug);
    var items := [];
    for i := 0 to |records|
      invariant items == ItemsAt(t, provider, baseUsable, slug, ids[..i])
    {
      RecordAt(t, slug, i);
      ItemsStep(t, provider, baseUsable, slug, ids, i);
      var item := ItemOf(provider, baseUsable, slug, records[i].id, records[i].record);
      if item.Some? { items := items + [item.value]; }
    }
    assert ids[..|ids|] == ids;
    FeedInDetail(library.hash, library.State(), provider, baseUsable, slug);
    return Success(items);
  }

  lemma ItemsStep(t: Table, provider: string, baseUsable: bool, show: ShowSlug, ids: seq<EpisodeId>, i: nat)
    requires i < |ids| && Key(show, ids[i]) in t
    ensures var item := ItemOf(provider, baseUsable, show, ids[i], t[Key(show, ids[i])]);
            ItemsAt(t, provider, baseUsable, show, ids[..i + 1])
            == ItemsAt(t, provider, baseUsable, show, ids[..i]) + if item.Some? then [item.value] else []
  {
    assert ids[..i + 1][..i] == ids[..i];
  }

  // ----- exactly one item per cached row -----

  lemma {:induction false} NameAfterSlash(a: string, b: string)
    requires '/' !in b
    ensures AfterLastSlash(a + ("/" + b)) == b
  {
    var s := a + ("/" + b);
    if b == "" {
      assert s[|s| - 1] == '/';
    } else {
      var n := |b| - 1;
      assert s[..|s| - 1] == a + ("/" + b[..n]);
      assert s[|s| - 1] == b[n] && b[n] in b;
      NameAfterSlash(a, b[..n]);
    }
  }

  /** Every path an episode may be stored at names a file. */
  lemma OwnedPathHasName(key: Key, p: Path)
    requires Owns(key, p)
    ensures FileName(p).Some?
  {
    var ext :| '/' !in ext && p == PathText(key.show, Stem(key.id), ext);
    var name := Stem(key.id) + ("." + ext);
    assert p == ("media/" + key.show) + ("/" + name);
    assert '/' !in name;
    NameAfterSlash("media/" + key.show, name);
    assert name[0] == Stem(key.id)[0] && Stem(key.id)[0] in Stem(key.id);
  }

  /** In a library whose database and disk agree, each cached row yields its one item and no
      other row yields any, in stored order. */
  lemma {:induction false} OneItemPerCachedRow(
    hash: Bytes -> Hash, w: World, provider: string, show: ShowSlug, ids: seq<EpisodeId>)
    requires Agrees(hash, w)
    ensures var items, cached := ItemsAt(w.table, provider, true, show, ids), Only(ids, CachedAmong(w.table, show, ids));
            && |items| == |cached|
            && forall k :: 0 <= k < |items| ==>
                 && Key(show, cached[k]) in w.table
                 && ItemOf(provider, true, show, cached[k], w.table[Key(show, cached[k])]) == Some(items[k])
                 && items[k].guid == Guid(provider, show, cached[k])
  {
    if ids != [] {
      var n := |ids| - 1;
      var key := Key(show, ids[n]);
      OneItemPerCachedRow(hash, w, provider, show, ids[..n]);
      CachedAmongPrefix(w.table, show, ids);
      RowHasItem(hash, w, provider, key);
    }
  }

  /** Below a directory, every ordinary last component is the file name; a step upwards is none. */
  lemma FileNameExactly(dir: string, name: string)
    requires '/' !in name && name != "" && name != "."
    ensures FileName(dir + ("/" + name)) == if name == ".." then None else Some(name)
  {
    NameAfterSlash(dir, name);
  }

  // ----- what an item says -----

  lemma OwnedName(key: Key, p: Path)
    requires Owns(key, p)
    ensures FileName(p).Some? && p == "media/" + key.show + "/" + FileName(p).value
  {
    OwnedPathHasName(key, p);
    var ext :| '/' !in ext && p == PathText(key.show, Stem(key.id), ext);
    var name := Stem(key.id) + ("." + ext);
    assert p == ("media/" + key.show) + ("/" + name);
    NameAfterSlash("media/" + key.show, name);
    assert ("media/" + key.show) + ("/" + name) == "media/" + key.show + "/" + name;
  }

  /** An item describes the file of its row: its length is the file's, its enclosure is the file's
      place, and what the listing said of the episode is passed on. */
  ghost predicate Describes(item: Item, w: World, provider: string, key: Key)
    requires key in w.table
  {
    var c := w.table[key].data;
    && item.guid == provider + "/" + key.show + "/" + key.id
    && item.title == c.title && item.description == c.description
    && item.publishedAt == c.publishedAt && item.durationSecs == c.durationSecs
    && c.filePath.Some? && c.filePath.value in w.files
    && item.enclosure.0 == key.show && c.filePath.value == "media/" + item.enclosure.0 + "/" + item.enclosure.1
    && item.enclosureBytes == |w.files[c.filePath.value]|
    && item.enclosureMime ==
         if c.mime.None? then "application/octet-stream"
         else if c.mime.value == "audio/mp3" then "audio/mpeg"
         else if c.mime.value == "audio/x-m4a" then "audio/mp4"
         else c.mime.value
  }

  lemma GuidText(provider: string, show: ShowSlug, id: EpisodeId)
    ensures Guid(provider, show, id) == provider + "/" + show + "/" + id
  {
    assert provider + ("/" + (show + ("/" + id))) == provider + "/" + show + "/" + id;
  }

  lemma ItemDescribes(hash: Bytes -> Hash, w: World, provider: string, key: Key, item: Item)
    requires RowAgrees(hash, w, key) && key in w.table
    requires ItemOf(provider, true, key.show, key.id, w.table[key]) == Some(item)
    ensures Describes(item, w, provider, key)
  {
    var c := w.table[key].data;
    GuidText(provider, key.show, key.id);
    OwnedName(key, c.filePath.value);
    if c.mime.Some? { MimeRoundTrip(c.mime.value); }
  }

  /** In a library whose database and disk agree, the feed has one item for each cached row, in stored
      order, and each item describes that row's file. */
  lemma FeedDescribesFiles(hash: Bytes -> Hash, w: World, provider: string, show: ShowSlug, k: nat)
    requires Agrees(hash, w) && k < |Items(w.table, provider, true, show)|
    ensures |Items(w.table, provider, true, show)| == |CachedInOrder(w.table, show)|
    ensures var key := Key(show, CachedInOrder(w.table, show)[k]);
            key in w.table && Describes(Items(w.table, provider, true, show)[k], w, provider, key)
  {
    var ids := Ordered(w.table, show);
    OneItemPerCachedRow(hash, w, provider, show, ids);
    OnlySame(ids, CachedAmong(w.table, show, ids), CachedIds(w.table, show));
    var key := Key(show, CachedInOrder(w.table, show)[k]);
    assert RowAgrees(hash, w, key);
    ItemDescribes(hash, w, provider, key, Items(w.table, provider, true, show)[k]);
  }

  lemma FeedInDetail(hash: Bytes -> Hash, w: World, provider: string, baseUsable: bool, show: ShowSlug)
    ensures !baseUsable ==> Items(w.table, provider, baseUsable, show) == []
    ensures baseUsable && Agrees(hash, w) ==>
              var items, cached := Items(w.table, provider, baseUsable, show), CachedInOrder(w.table, show);
              && |items| == |cached|
              && forall k :: 0 <= k < |cached| ==>
                   Key(show, cached[k]) in w.table && Describes(items[k], w, provider, Key(show, cached[k]))
  {
    if !baseUsable {
      NoBaseNoItems(w.table, provider, show, Ordered(w.table, show));
    } else if Agrees(hash, w) {
      FeedLength(hash, w, provider, show);
      forall k | 0 <= k < |CachedInOrder(w.table, show)|
        ensures var key := Key(show, CachedInOrder(w.table, show)[k]);
                key in w.table && Describes(Items(w.table, provider, true, show)[k], w, provider, key)
      {
        FeedDescribesFiles(hash, w, provider, show, k);
      }
    }
  }

  lemma FeedLength(hash: Bytes -> Hash, w: World, provider: string, show: ShowSlug)
    requires Agrees(hash, w)
    ensures |Items(w.table, provider, true, show)| == |CachedInOrder(w.table, show)|
  {
    OneItemPerCachedRow(hash, w, provider, show, Ordered(w.table, show));
    OnlySame(Ordered(w.table, show), CachedAmong(w.table, show, Ordered(w.table, show)), CachedIds(w.table, show));
  }

  /** The type of a freshly fetched episode's item is that of the response, if it looked like audio,
      and otherwise the one the provider named. */
  lemma FreshType(hash: Bytes -> Hash, w: World, provider: string, key: Key, up: Upstream, x: Exchange)
    requires Arrives(hash, w.table, key, up) && Storable(hash, up)
    requires var audio, xs := up.resolve(key.id).value, up.exchanges(key.id); x == xs[Deciding(hash, audio, xs)]
    ensures var w', audio := DownloadOne(hash, w, key, up), up.resolve(key.id).value;
            var item := ItemOf(provider, true, key.show, key.id, w'.table[key]);
            && item.Some? && item.value.enclosureBytes == |Body(x)|
            && (x.contentType.Some? && "audio/" <= x.contentType.value ==>
                  item.value.enclosureMime == MimeText(ParseMime(x.contentType.value)))
            && (!(x.contentType.Some? && "audio/" <= x.contentType.value) && audio.mime.None? ==>
                  item.value.enclosureMime == "application/octet-stream")
            && (!(x.contentType.Some? && "audio/" <= x.contentType.value) && audio.mime.Some? ==>
                  item.value.enclosureMime == MimeText(ParseMime(MimeText(audio.mime.value))))
  {
    var got := Fetched(hash, key, up).value;
    FetchedFile(hash, key, up);
    DownloadOneRow(hash, w, key, up);
    OwnedPathHasName(key, got.file.filePath);
    if x.contentType.Some? { MimeRoundTrip(x.contentType.value); }
  }

  /** A base URL that cannot take path segments makes no items. */
  lemma {:induction false} NoBaseNoItems(t: Table, provider: string, show: ShowSlug, ids: seq<EpisodeId>)
    ensures ItemsAt(t, provider, false, show, ids) == []
  {
    if ids != [] { NoBaseNoItems(t, provider, show, ids[..|ids| - 1]); }
  }

  /** The cached ones among `ids`. */
  ghost function CachedAmong(t: Table, show: ShowSlug, ids: seq<EpisodeId>): set<EpisodeId> {
    set id | id in ids && IsCached(t, Key(show, id))
  }

  lemma CachedAmongPrefix(t: Table, show: ShowSlug, ids: seq<EpisodeId>)
    requires ids != []
    ensures var n := |ids| - 1;
            Only(ids[..n], CachedAmong(t, show, ids)) == Only(ids[..n], CachedAmong(t, show, ids[..n]))
  {
    var n := |ids| - 1;
    assert ids == ids[..n] + [ids[n]];
    OnlySame(ids[..n], CachedAmong(t, show, ids), CachedAmong(t, show, ids[..n]));
  }

  lemma {:induction false} OnlySame(ids: seq<EpisodeId>, a: set<EpisodeId>, b: set<EpisodeId>)
    requires forall id :: id in ids ==> (id in a <==> id in b)
    ensures Only(ids, a) == Only(ids, b)
  {
    if ids != [] {
      var n := |ids| - 1;
      assert ids == ids[..n] + [ids[n]];
      OnlySame(ids[..n], a, b);
    }
  }

  lemma RowHasItem(hash: Bytes -> Hash, w: World, provider: string, key: Key)
    requires Agrees(hash, w)
    ensures key in w.table ==>
              (ItemOf(provider, true, key.show, key.id, w.table[key]).Some? <==> w.table[key].state.Cached?)
  {
    assert RowAgrees(hash, w, key);
    if IsCached(w.table, key) { OwnedPathHasName(key, w.table[key].data.filePath.value); }
  }

  // ----- identifiers -----

  /** The text before the first slash. */
  function FirstSegment(s: string): string {
    if s == "" || s[0] == '/' then "" else [s[0]] + FirstSegment(s[1..])
  }

  lemma {:induction false} SegmentOfJoined(a: string, b: string)
    ensures FirstSegment(a + ("/" + b)) == FirstSegment(a)
    ensures '/' !in a ==> FirstSegment(a) == a
  {
    if a != "" && a[0] != '/' {
      assert (a + ("/" + b))[1..] == a[1..] + ("/" + b);
      SegmentOfJoined(a[1..], b);
      assert a == [a[0]] + a[1..];
    }
  }

  lemma {:induction false} SegmentIsPrefix(a: string)
    ensures FirstSegment(a) <= a
    ensures FirstSegment(a) == a || a[|FirstSegment(a)|] == '/'
  {
    if a != "" && a[0] != '/' {
      SegmentIsPrefix(a[1..]);
      assert a == [a[0]] + a[1..];
    }
  }

  /** `q` is `p`, a slash, and then a text whose first segment is a slug. */
  predicate Extends(p: string, q: string) {
    |p| < |q| && p == q[..|p|] && q[|p|] == '/' && ValidSlug(FirstSegment(q[|p| + 1..]))
  }

  /** Two different episodes of these providers have one GUID. */
  ghost predicate Collide(p: string, s: ShowSlug, id: EpisodeId, q: string, s': ShowSlug, id': EpisodeId) {
    Guid(p, s, id) == Guid(q, s', id') && !(p == q && s == s' && id == id')
  }

  lemma CollisionExtends(p: string, s: ShowSlug, id: EpisodeId, q: string, s': ShowSlug, id': EpisodeId)
    requires Collide(p, s, id, q, s', id') && |p| <= |q|
    ensures Extends(p, q)
  {
    var x, y := s + ("/" + id), s' + ("/" + id');
    var g := p + ("/" + x);
    assert g == q + ("/" + y) && g[..|p|] == p && g[..|q|] == q && "/" == ['/'];
    if |p| == |q| {
      assert p == q && g[|p| + 1..] == x && g[|p| + 1..] == y;
      CutAtFirst(s, id, s', id', '/');
    } else {
      var rest := q[|p| + 1..];
      assert q[|p|] == g[|p|] == '/';
      assert x == g[|p| + 1..] && g[|p| + 1..] == rest + ("/" + y);
      SegmentOfJoined(s, id);
      SegmentOfJoined(rest, y);
    }
  }

  lemma SplitAtSegment(a: string, b: string) returns (tail: string)
    ensures a + ("/" + b) == FirstSegment(a) + ("/" + tail) && |tail| >= |b|
  {
    var seg := FirstSegment(a);
    SegmentIsPrefix(a);
    if seg == a {
      tail := b;
    } else {
      tail := a[|seg| + 1..] + ("/" + b);
      assert a == seg + ("/" + a[|seg| + 1..]);
      JoinAssociates(seg, a[|seg| + 1..], b);
    }
  }

  lemma JoinAssociates(a: string, b: string, c: string)
    ensures (a + ("/" + b)) + ("/" + c) == a + ("/" + (b + ("/" + c)))
  {
  }

  lemma ExtensionCollides(p: string, q: string) returns (s: ShowSlug, id: EpisodeId, s': ShowSlug, id': EpisodeId)
    requires Extends(p, q)
    ensures Collide(p, s, id, q, s', id')
  {
    var rest := q[|p| + 1..];
    assert q == p + ("/" + rest);
    s, s', id' := FirstSegment(rest), "a", "1";
    var tail := SplitAtSegment(rest, s' + ("/" + id'));
    id := tail;
    JoinAssociates(p, rest, s' + ("/" + id'));
  }

  /** Two provider names admit a collision exactly when one extends the other by a slash and a
      slug; in particular the episodes of one provider never collide, nor do those of providers
      without a slash, whatever their ids contain. */
  lemma GuidsCollideExactly(p: string, q: string)
    ensures (exists s: ShowSlug, id: EpisodeId, s': ShowSlug, id': EpisodeId :: Collide(p, s, id, q, s', id'))
            <==> Extends(p, q) || Extends(q, p)
  {
    forall s: ShowSlug, id: EpisodeId, s': ShowSlug, id': EpisodeId | Collide(p, s, id, q, s', id')
      ensures Extends(p, q) || Extends(q, p)
    {
      if |p| <= |q| { CollisionExtends(p, s, id, q, s', id'); }
      else { CollisionExtends(q, s', id', p, s, id); }
    }
    if Extends(p, q) {
      var s, id, s', id' := ExtensionCollides(p, q);
    } else if Extends(q, p) {
      var s', id', s, id := ExtensionCollides(q, p);
      assert Collide(p, s, id, q, s', id');
    }
  }

  /** GUIDs of distinct episodes differ when the providers are one and the same or their names
      hold no slash. */
  lemma GuidInjective(p: string, s: ShowSlug, id: EpisodeId, p': string, s': ShowSlug, id': EpisodeId)
    requires p == p' || ('/' !in p && '/' !in p')
    requires Guid(p, s, id) == Guid(p', s', id')
    ensures p == p' && s == s' && id == id'
  {
    if Collide(p, s, id, p', s', id') {
      if |p| <= |p'| { CollisionExtends(p, s, id, p', s', id'); } else { CollisionExtends(p', s', id', p, s, id); }
      assert false;
    }
  }

  // ----- a sync that moves nothing -----

  lemma {:induction false} ItemsFrame(
    t: Table, t': Table, provider: string, baseUsable: bool, show: ShowSlug, ids: seq<EpisodeId>)
    requires forall id: EpisodeId :: SameCached(t, t', Key(show, id))
    ensures ItemsAt(t', provider, baseUsable, show, ids) == ItemsAt(t, provider, baseUsable, show, ids)
  {
    if ids != [] {
      var n := |ids| - 1;
      ItemsFrame(t, t', provider, baseUsable, show, ids[..n]);
      assert SameCached(t, t', Key(show, ids[n]));
    }
  }

  /** The row is cached in both tables and the same, or in neither. */
  ghost predicate SameCached(t: Table, t': Table, key: Key) {
    (IsCached(t, key) <==> IsCached(t', key)) && (IsCached(t, key) ==> t'[key] == t[key])
  }

  lemma {:induction false} NoneDownloaded(
    hash: Bytes -> Hash, w: World, show: ShowSlug, ids: seq<EpisodeId>, up: Upstream, id: EpisodeId)
    requires Distinct(ids) && AllPending(w.table, show, ids)
    requires DownloadedCount(hash, w, show, ids, up) == 0 && id in ids
    ensures Fetched(hash, Key(show, id), up).Failure?
  {
    var n := |ids| - 1;
    DownloadedStep(hash, w, show, ids, up);
    assert ids == ids[..n] + [ids[n]];
    assert forall x :: x in ids[..n] ==> x in ids;
    if id != ids[n] { NoneDownloaded(hash, w, show, ids[..n], up, id); }
  }

  lemma {:induction false} NonePruned(w: World, show: ShowSlug, ids: seq<EpisodeId>, up: Upstream)
    requires PruneFreed(w, show, ids, up).count == 0
    ensures Prune(w, show, ids, up) == w
  {
    if ids != [] { NonePruned(w, show, ids[..|ids| - 1], up); }
  }

  lemma FailedDownloadsKeepCached(
    hash: Bytes -> Hash, w: World, show: ShowSlug, policy: Policy, window: seq<EpisodeId>, up: Upstream, key: Key)
    requires Distinct(window)
    requires SettleDownloaded(hash, w, show, policy, window, up) == 0
    ensures var t' := Downloads(hash, w, show, Pending(w.table, show, policy, window), up).table;
            && SameCached(w.table, t', key)
            && (key in t' <==> key in w.table)
            && (key in t' ==> t'[key].data.publishedAt == w.table[key].data.publishedAt)
  {
    var ids := Pending(w.table, show, policy, window);
    PendingMembers(w.table, show, policy, window);
    DownloadRow(hash, w, show, ids, up, key);
    if key.show == show && key.id in ids { NoneDownloaded(hash, w, show, ids, up, key.id); }
  }

  lemma HealKeepsCached(t: Table, show: ShowSlug, up: Upstream, key: Key)
    requires up.listing == Success(NotModified)
    ensures var t' := Listed(t, show, up);
            && SameCached(t, t', key)
            && (key in t' <==> key in t)
            && (key in t' ==> t'[key].data.publishedAt == t[key].data.publishedAt)
  {
  }

  /** The settling part of a sync that downloads and prunes nothing. */
  lemma IdleSettle(
    hash: Bytes -> Hash, w: World, show: ShowSlug, policy: Policy, window: seq<EpisodeId>, up: Upstream, id: EpisodeId)
    requires Distinct(window)
    requires SettleDownloaded(hash, w, show, policy, window, up) == 0
    requires SettleFreed(hash, w, show, policy, window, up).count == 0
    ensures var t' := Settle(hash, w, show, policy, window, up).table;
            && SameCached(w.table, t', Key(show, id))
            && (Key(show, id) in t' <==> Key(show, id) in w.table)
            && (Key(show, id) in t' ==> t'[Key(show, id)].data.publishedAt == w.table[Key(show, id)].data.publishedAt)
  {
    var w' := Downloads(hash, w, show, Pending(w.table, show, policy, window), up);
    NonePruned(w', show, PrunePlan(w'.table, show, policy), up);
    FailedDownloadsKeepCached(hash, w, show, policy, window, up, Key(show, id));
  }

  lemma SameRowsSameFeed(t: Table, t': Table, provider: string, baseUsable: bool, show: ShowSlug)
    requires forall id: EpisodeId :: SameCached(t, t', Key(show, id))
    requires forall id: EpisodeId :: Key(show, id) in t <==> Key(show, id) in t'
    requires forall id: EpisodeId :: Key(show, id) in t ==>
               t[Key(show, id)].data.publishedAt == t'[Key(show, id)].data.publishedAt
    ensures Items(t', provider, baseUsable, show) == Items(t, provider, baseUsable, show)
  {
    OrderedFrame(t, t', show);
    ItemsFrame(t, t', provider, baseUsable, show, Ordered(t, show));
  }

  lemma HealKeepsFeed(t: Table, show: ShowSlug, up: Upstream, provider: string, baseUsable: bool)
    requires up.listing == Success(NotModified)
    ensures Items(Listed(t, show, up), provider, baseUsable, show) == Items(t, provider, baseUsable, show)
  {
    var t' := Listed(t, show, up);
    forall id: EpisodeId
      ensures SameCached(t, t', Key(show, id))
      ensures Key(show, id) in t' <==> Key(show, id) in t
      ensures Key(show, id) in t ==> t'[Key(show, id)].data.publishedAt == t[Key(show, id)].data.publishedAt
    {
      HealKeepsCached(t, show, up, Key(show, id));
    }
    SameRowsSameFeed(t, t', provider, baseUsable, show);
  }

  lemma WindowIsDistinct(t: Table, show: ShowSlug, limit: Option<nat>, up: Upstream)
    requires up.listing == Success(NotModified)
    ensures Distinct(Window(t, show, limit, up))
  {
    OrderedRows(Listed(t, show, up), show);
  }

  /** A sync that finds nothing new, downloads nothing and prunes nothing leaves the feed as it
      was, whatever failed along the way. */
  lemma IdleSyncKeepsFeed(
    hash: Bytes -> Hash, w: World, show: ShowSlug, policy: Policy, limit: Option<nat>, up: Upstream,
    provider: string, baseUsable: bool)
    requires up.listing == Success(NotModified)
    requires var listed := World(Listed(w.table, show, up), w.files);
             var window := Window(w.table, show, limit, up);
             && SettleDownloaded(hash, listed, show, policy, window, up) == 0
             && SettleFreed(hash, listed, show, policy, window, up).count == 0
    ensures Items(Synced(hash, w, show, policy, limit, up).table, provider, baseUsable, show)
            == Items(w.table, provider, baseUsable, show)
  {
    var listed := World(Listed(w.table, show, up), w.files);
    HealKeepsFeed(w.table, show, up, provider, baseUsable);
    WindowIsDistinct(w.table, show, limit, up);
    IdleSettleKeepsFeed(hash, listed, show, policy, Window(w.table, show, limit, up), up, provider, baseUsable);
  }

  lemma IdleSettleKeepsFeed(
    hash: Bytes -> Hash, w: World, show: ShowSlug, policy: Policy, window: seq<EpisodeId>, up: Upstream,
    provider: string, baseUsable: bool)
    requires Distinct(window)
    requires SettleDownloaded(hash, w, show, policy, window, up) == 0
    requires SettleFreed(hash, w, show, policy, window, up).count == 0
    ensures Items(Settle(hash, w, show, policy, window, up).table, provider, baseUsable, show)
            == Items(w.table, provider, baseUsable, show)
  {
    var t' := Settle(hash, w, show, policy, window, up).table;
    forall id: EpisodeId
      ensures SameCached(w.table, t', Key(show, id))
      ensures Key(show, id) in t' <==> Key(show, id) in w.table
      ensures Key(show, id) in w.table ==> t'[Key(show, id)].data.publishedAt == w.table[Key(show, id)].data.publishedAt
    {
      IdleSettle(hash, w, show, policy, window, up, id);
    }
    SameRowsSameFeed(w.table, t', provider, baseUsable, show);
  }
}
