/** The episode table as the storage calls see it: one atomic step per call. */
module Episodes {
  import opened Wrappers
  import opened Domain
  import opened Timestamps
  import opened Order

  type Path = string
  type Hash = nat

  datatype Key = Key(show: ShowSlug, id: EpisodeId)

  datatype EpisodeMeta = EpisodeMeta(
    id: EpisodeId, title: string, description: Option<string>,
    publishedAt: Option<Timestamp>, durationSecs: Option<nat>)

  datatype CachedFile = CachedFile(
    filePath: Path, bytes: nat, blake3: Hash, mime: Option<AudioMime>, durationSecs: Option<nat>)

  /** Every column of a row besides the key and the state. */
  datatype Columns = Columns(
    title: string, description: Option<string>, publishedAt: Option<Timestamp>, durationSecs: Option<nat>,
    filePath: Option<Path>, bytes: Option<nat>, blake3: Option<Hash>, mime: Option<string>,
    discoveredAt: Timestamp, downloadedAt: Option<Timestamp>,
    bytesDone: Option<nat>, bytesTotal: Option<nat>, progressAt: Option<Timestamp>)

  datatype Record = Record(state: EpisodeState, data: Columns)

  type Table = map<Key, Record>

  datatype StorageError =
    | EpisodeNotFound(key: Key)
    | IllegalTransition(key: Key, from: EpisodeState, to: EpisodeState)
    | Corrupt(reason: DecodeError)

  // ----- column updates -----

  const MAX_INTEGER: nat := 0x7FFF_FFFF_FFFF_FFFF

  /** Sizes are stored in a signed 64-bit column; larger ones are clamped. */
  function Clamp(n: nat): nat {
    if n <= MAX_INTEGER then n else MAX_INTEGER
  }

  function Fresh(m: EpisodeMeta, now: Timestamp): Columns {
    Columns(m.title, m.description, m.publishedAt, m.durationSecs,
            None, None, None, None, now, None, None, None, None)
  }

  /** A new listing refreshes the metadata; an unknown duration never overwrites a known one. */
  function Refreshed(c: Columns, m: EpisodeMeta): Columns {
    c.(title := m.title, description := m.description, publishedAt := m.publishedAt,
       durationSecs := if m.durationSecs.Some? then m.durationSecs else c.durationSecs)
  }

  function Idle(c: Columns): Columns {
    c.(bytesDone := None, bytesTotal := None, progressAt := None)
  }

  function Stored(c: Columns, file: CachedFile, now: Timestamp): Columns {
    Idle(c).(filePath := Some(file.filePath), bytes := Some(Clamp(file.bytes)), blake3 := Some(file.blake3),
             mime := if file.mime.Some? then Some(MimeText(file.mime.value)) else None,
             durationSecs := if c.durationSecs.Some? then c.durationSecs else file.durationSecs,
             downloadedAt := Some(now))
  }

  function Forgotten(c: Columns): Columns {
    c.(filePath := None)
  }

  function Progressed(c: Columns, done: nat, total: Option<nat>, now: Timestamp): Columns {
    c.(bytesDone := Some(Clamp(done)),
       bytesTotal := if total.Some? then Some(Clamp(total.value)) else None,
       progressAt := Some(now))
  }

  // ----- the calls -----

  predicate Allowed(t: Table, key: Key, to: EpisodeState) {
    key in t && CanTransition(t[key].state, to)
  }

  function Answer(t: Table, key: Key, to: EpisodeState): Result<(), StorageError> {
    if key !in t then Failure(EpisodeNotFound(key))
    else if CanTransition(t[key].state, to) then Success(())
    else Failure(IllegalTransition(key, t[key].state, to))
  }

  function MarkDownloading(t: Table, key: Key): Table {
    if Allowed(t, key, Downloading) then t[key := Record(Downloading, Idle(t[key].data))] else t
  }

  function MarkCached(t: Table, key: Key, file: CachedFile, now: Timestamp): Table {
    if Allowed(t, key, Cached) then t[key := Record(Cached, Stored(t[key].data, file, now))] else t
  }

  function MarkFailed(t: Table, key: Key, why: ErrorClass): Table {
    if Allowed(t, key, Failed(why)) then t[key := Record(Failed(why), Idle(t[key].data))] else t
  }

  function MarkPruned(t: Table, key: Key): Table {
    if Allowed(t, key, Pruned) then t[key := Record(Pruned, Forgotten(t[key].data))] else t
  }

  function SetProgress(t: Table, key: Key, done: nat, total: Option<nat>, now: Timestamp): Table {
    if key in t && t[key].state.Downloading?
    then t[key := Record(Downloading, Progressed(t[key].data, done, total, now))]
    else t
  }

  /** A download that never reported progress, or last did so before `cutoff` as text. */
  predicate Stale(c: Columns, cutoff: Timestamp) {
    c.progressAt.None? || TextLess(Text(c.progressAt.value), Text(cutoff))
  }

  predicate Heals(key: Key, r: Record, show: ShowSlug, cutoff: Timestamp) {
    key.show == show && r.state.Downloading? && Stale(r.data, cutoff)
  }

  /** The bulk heal: one statement that writes `failed` without a transition check. */
  function ResetStale(t: Table, show: ShowSlug, cutoff: Timestamp): Table {
    map key | key in t ::
      if Heals(key, t[key], show, cutoff) then Record(Failed(Network), Idle(t[key].data)) else t[key]
  }

  function DiscoverOne(t: Table, show: ShowSlug, m: EpisodeMeta, now: Timestamp): Table {
    var key := Key(show, m.id);
    t[key := if key in t then Record(t[key].state, Refreshed(t[key].data, m)) else Record(Discovered, Fresh(m, now))]
  }

  function Discover(t: Table, show: ShowSlug, listing: seq<EpisodeMeta>, now: Timestamp): Table {
    if listing == [] then t
    else
      var n := |listing| - 1;
      DiscoverOne(Discover(t, show, listing[..n], now), show, listing[n], now)
  }

  /** The ids a discovery reports as new, in listing order. */
  function News(t: Table, show: ShowSlug, listing: seq<EpisodeMeta>, now: Timestamp): seq<EpisodeId> {
    if listing == [] then []
    else
      var n := |listing| - 1;
      News(t, show, listing[..n], now)
      + if Key(show, listing[n].id) in Discover(t, show, listing[..n], now) then [] else [listing[n].id]
  }

  datatype Op =
    | DoDiscover(show: ShowSlug, listing: seq<EpisodeMeta>, now: Timestamp)
    | DoDownloading(key: Key)
    | DoCached(key: Key, file: CachedFile, now: Timestamp)
    | DoFailed(key: Key, why: ErrorClass)
    | DoPruned(key: Key)
    | DoProgress(key: Key, done: nat, total: Option<nat>, now: Timestamp)
    | DoResetStale(show: ShowSlug, cutoff: Timestamp)

  /** One storage call, refused calls included. */
  function Step(t: Table, op: Op): Table {
    match op
    case DoDiscover(show, listing, now) => Discover(t, show, listing, now)
    case DoDownloading(key) => MarkDownloading(t, key)
    case DoCached(key, file, now) => MarkCached(t, key, file, now)
    case DoFailed(key, why) => MarkFailed(t, key, why)
    case DoPruned(key) => MarkPruned(t, key)
    case DoProgress(key, done, total, now) => SetProgress(t, key, done, total, now)
    case DoResetStale(show, cutoff) => ResetStale(t, show, cutoff)
  }

  function Run(t: Table, ops: seq<Op>): Table {
    if ops == [] then t else Step(Run(t, ops[..|ops| - 1]), ops[|ops| - 1])
  }

  // ----- what every row satisfies -----

  predicate NoProgress(c: Columns) {
    c.bytesDone.None? && c.bytesTotal.None? && c.progressAt.None?
  }

  /** Which optional columns a row of each state holds. */
  predicate RowOk(r: Record) {
    && (r.data.bytes.Some? <==> r.data.blake3.Some?)
    && (r.data.bytes.Some? <==> r.data.downloadedAt.Some?)
    && (r.data.filePath.Some? ==> r.data.bytes.Some?)
    && (r.state.Cached? ==> r.data.filePath.Some? && r.data.bytes.Some?)
    && (r.state.Pruned? ==> r.data.filePath.None? && r.data.bytes.Some?)
    && (r.state.Discovered? ==> r.data.bytes.None?)
    && (!r.state.Downloading? ==> NoProgress(r.data))
  }

  ghost predicate TableOk(t: Table) {
    forall key :: key in t ==> RowOk(t[key])
  }

  ghost predicate Lists(listing: seq<EpisodeMeta>, id: EpisodeId) {
    exists i :: 0 <= i < |listing| && listing[i].id == id
  }

  /** A discovery adds the listed ids as discovered rows and leaves the state and file of
      every known row alone. */
  lemma {:induction false} DiscoverRow(
    t: Table, show: ShowSlug, listing: seq<EpisodeMeta>, now: Timestamp, key: Key)
    ensures var t' := Discover(t, show, listing, now);
            && (key in t' <==> key in t || (key.show == show && Lists(listing, key.id)))
            && (key in t ==> t'[key].state == t[key].state && SameFile(t[key].data, t'[key].data))
            && (key in t' && key !in t ==> t'[key].state == Discovered && RowOk(t'[key]))
  {
    if listing != [] {
      var n := |listing| - 1;
      DiscoverRow(t, show, listing[..n], now, key);
      if Lists(listing[..n], key.id) {
        var i :| 0 <= i < n && listing[..n][i].id == key.id;
        assert listing[i].id == key.id;
      }
      if Lists(listing, key.id) && key.id != listing[n].id {
        var i :| 0 <= i < |listing| && listing[i].id == key.id;
        assert listing[..n][i].id == key.id;
      }
    }
  }

  /** The columns that describe the file and the transfer, and a duration that never gets lost. */
  predicate SameFile(a: Columns, b: Columns) {
    && a.filePath == b.filePath && a.bytes == b.bytes && a.blake3 == b.blake3 && a.mime == b.mime
    && a.discoveredAt == b.discoveredAt && a.downloadedAt == b.downloadedAt
    && a.bytesDone == b.bytesDone && a.bytesTotal == b.bytesTotal && a.progressAt == b.progressAt
    && (a.durationSecs.Some? ==> b.durationSecs.Some?)
  }

  lemma StepKeepsRow(t: Table, op: Op, key: Key)
    requires key in t ==> RowOk(t[key])
    ensures key in Step(t, op) ==> RowOk(Step(t, op)[key])
  {
    if op.DoDiscover? { DiscoverRow(t, op.show, op.listing, op.now, key); }
  }

  /** Every storage call, allowed or refused, keeps the row rules. */
  lemma StepKeepsRows(t: Table, op: Op)
    requires TableOk(t)
    ensures TableOk(Step(t, op))
  {
    forall key | key in Step(t, op) ensures RowOk(Step(t, op)[key]) {
      StepKeepsRow(t, op, key);
    }
  }

  /** The row rules hold after any sequence of storage calls in any interleaving. */
  lemma {:induction false} RunKeepsRows(t: Table, ops: seq<Op>)
    requires TableOk(t)
    ensures TableOk(Run(t, ops))
    ensures forall key :: key in Run(t, ops) ==>
              var r := Run(t, ops)[key];
              && (r.state.Cached? ==> r.data.filePath.Some? && r.data.bytes.Some? && r.data.blake3.Some? && r.data.downloadedAt.Some?)
              && (r.state.Pruned? ==> r.data.filePath.None? && r.data.bytes.Some? && r.data.blake3.Some? && r.data.downloadedAt.Some?)
              && (r.state.Discovered? ==>
                    r.data.filePath.None? && r.data.bytes.None? && r.data.blake3.None? && r.data.downloadedAt.None?)
              && (!r.state.Downloading? ==> r.data.bytesDone.None? && r.data.bytesTotal.None? && r.data.progressAt.None?)
  {
    if ops != [] {
      RunKeepsRows(t, ops[..|ops| - 1]);
      StepKeepsRows(Run(t, ops[..|ops| - 1]), ops[|ops| - 1]);
    }
  }

  // ----- which columns each call writes -----

  /** Two rows differ at most in the columns of a transfer under way. */
  predicate SameButProgress(a: Columns, b: Columns) {
    a.(bytesDone := b.bytesDone, bytesTotal := b.bytesTotal, progressAt := b.progressAt) == b
  }

  /** A discovery writes what the last entry for an id says of title, description and time; a
      duration only if the entry has one. An id that is not listed keeps its row. */
  lemma {:induction false} DiscoverColumns(t: Table, show: ShowSlug, listing: seq<EpisodeMeta>, now: Timestamp, i: nat)
    requires i < |listing| && forall j :: i < j < |listing| ==> listing[j].id != listing[i].id
    ensures var key, t' := Key(show, listing[i].id), Discover(t, show, listing, now);
            && key in t'
            && t'[key].data.title == listing[i].title && t'[key].data.description == listing[i].description
            && t'[key].data.publishedAt == listing[i].publishedAt
            && (listing[i].durationSecs.Some? ==> t'[key].data.durationSecs == listing[i].durationSecs)
  {
    var n := |listing| - 1;
    if i < n { DiscoverColumns(t, show, listing[..n], now, i); }
  }

  lemma {:induction false} DiscoverNew(t: Table, show: ShowSlug, listing: seq<EpisodeMeta>, now: Timestamp, key: Key)
    requires key !in t && key in Discover(t, show, listing, now)
    ensures var c := Discover(t, show, listing, now)[key].data;
            && c.discoveredAt == now && c.filePath.None? && c.bytes.None? && c.blake3.None? && c.mime.None?
            && c.downloadedAt.None? && c.bytesDone.None? && c.bytesTotal.None? && c.progressAt.None?
            && (c.durationSecs.Some? ==> exists i :: 0 <= i < |listing| && listing[i].id == key.id && listing[i].durationSecs == c.durationSecs)
  {
    var n := |listing| - 1;
    if listing != [] && key in Discover(t, show, listing[..n], now) {
      DiscoverNew(t, show, listing[..n], now, key);
      var c := Discover(t, show, listing[..n], now)[key].data;
      if c.durationSecs.Some? {
        var i :| 0 <= i < n && listing[..n][i].id == key.id && listing[..n][i].durationSecs == c.durationSecs;
        assert listing[i].id == key.id && listing[i].durationSecs == c.durationSecs;
      }
    }
  }

  lemma {:induction false} DiscoverUnlisted(t: Table, show: ShowSlug, listing: seq<EpisodeMeta>, now: Timestamp, key: Key)
    requires key in t && (key.show != show || forall i :: 0 <= i < |listing| ==> listing[i].id != key.id)
    ensures key in Discover(t, show, listing, now) && Discover(t, show, listing, now)[key] == t[key]
  {
    if listing != [] { DiscoverUnlisted(t, show, listing[..|listing| - 1], now, key); }
  }

  /** The row of a finished download: path, size, hash, type and time of the file, a duration only where
      none was known, and nothing the listing said. The size column holds at most
      9223372036854775807. */
  predicate CachedFrom(c: Columns, r: Record, file: CachedFile, now: Timestamp) {
    && r.state.Cached?
    && r.data.filePath == Some(file.filePath) && r.data.blake3 == Some(file.blake3) && r.data.downloadedAt == Some(now)
    && (file.bytes <= 9223372036854775807 ==> r.data.bytes == Some(file.bytes))
    && (file.bytes > 9223372036854775807 ==> r.data.bytes == Some(9223372036854775807))
    && (file.mime.None? ==> r.data.mime.None?)
    && (file.mime.Some? ==> r.data.mime == Some(MimeText(file.mime.value)))
    && (c.durationSecs.Some? ==> r.data.durationSecs == c.durationSecs)
    && (c.durationSecs.None? ==> r.data.durationSecs == file.durationSecs)
    && r.data.bytesDone.None? && r.data.bytesTotal.None? && r.data.progressAt.None?
    && r.data.title == c.title && r.data.description == c.description && r.data.publishedAt == c.publishedAt
    && r.data.discoveredAt == c.discoveredAt
  }

  /** A row after a report of progress: a downloading one holds the reported numbers, up to what the
      columns hold, and the time; any other is as it was. */
  predicate ProgressFrom(before: Record, r: Record, done: nat, total: Option<nat>, now: Timestamp) {
    if !before.state.Downloading? then r == before
    else
      && r.state.Downloading? && SameButProgress(before.data, r.data) && r.data.progressAt == Some(now)
      && (done <= 9223372036854775807 ==> r.data.bytesDone == Some(done))
      && (done > 9223372036854775807 ==> r.data.bytesDone == Some(9223372036854775807))
      && (total.None? ==> r.data.bytesTotal.None?)
      && (total.Some? && total.value <= 9223372036854775807 ==> r.data.bytesTotal == total)
      && (total.Some? && total.value > 9223372036854775807 ==> r.data.bytesTotal == Some(9223372036854775807))
  }

  lemma ProgressRow(t: Table, key: Key, done: nat, total: Option<nat>, now: Timestamp)
    ensures var t' := SetProgress(t, key, done, total, now);
            && t'.Keys == t.Keys
            && (key in t ==> ProgressFrom(t[key], t'[key], done, total, now))
            && forall other :: other in t && other != key ==> t'[other] == t[other]
  {
  }

  /** A row after a heal: a downloading row of the show that never reported has failed; a row of another
      show, or not downloading, is as it was; and what changed lost its progress and nothing else. */
  predicate HealedFrom(before: Record, r: Record, mine: bool) {
    && (mine && before.state.Downloading? && before.data.progressAt.None? ==> r.state == Failed(Network))
    && (!mine || !before.state.Downloading? ==> r == before)
    && (r != before ==>
          r.state == Failed(Network) && SameButProgress(before.data, r.data)
          && r.data.bytesDone.None? && r.data.bytesTotal.None? && r.data.progressAt.None?)
  }

  lemma HealRow(t: Table, show: ShowSlug, cutoff: Timestamp)
    ensures ResetStale(t, show, cutoff).Keys == t.Keys
    ensures forall key :: key in t ==> HealedFrom(t[key], ResetStale(t, show, cutoff)[key], key.show == show)
  {
  }

  // ----- every row's history is a path of the lifecycle -----

  /** No call removes a row, every change of state is a legal edge, new rows start out
      discovered, and a known duration stays known. */
  lemma StepIsLegal(t: Table, op: Op, key: Key)
    ensures var t' := Step(t, op);
            && (key in t ==> key in t' && (t'[key].state == t[key].state || CanTransition(t[key].state, t'[key].state)))
            && (key in t && t[key].data.durationSecs.Some? ==> t'[key].data.durationSecs.Some?)
            && (key in t' && key !in t ==> op.DoDiscover? && t'[key].state == Discovered)
  {
    if op.DoDiscover? { DiscoverRow(t, op.show, op.listing, op.now, key); }
  }

  /** The distinct states `key` went through, oldest first. */
  function History(t: Table, ops: seq<Op>, key: Key): seq<EpisodeState> {
    if ops == [] then if key in t then [t[key].state] else []
    else
      var before := History(t, ops[..|ops| - 1], key);
      var after := Run(t, ops);
      if key !in after || (before != [] && before[|before| - 1] == after[key].state) then before
      else before + [after[key].state]
  }

  predicate LifecyclePath(path: seq<EpisodeState>) {
    forall i :: 0 <= i < |path| - 1 ==> CanTransition(path[i], path[i + 1])
  }

  /** From an empty database, every row ever seen has walked the lifecycle from Discovered
      to its present state along legal edges, whatever calls were interleaved. */
  lemma {:induction false} HistoryIsLifecyclePath(ops: seq<Op>, key: Key)
    ensures var path := History(map[], ops, key);
            && LifecyclePath(path)
            && (path != [] <==> key in Run(map[], ops))
            && (path != [] ==> path[0] == Discovered && path[|path| - 1] == Run(map[], ops)[key].state)
  {
    if ops != [] {
      var n := |ops| - 1;
      HistoryIsLifecyclePath(ops[..n], key);
      StepIsLegal(Run(map[], ops[..n]), ops[n], key);
    }
  }

  // ----- how long a path stays -----

  /** The row was marked cached in this run, and not marked pruned since. */
  function CachedSincePruned(ops: seq<Op>, key: Key): bool {
    if ops == [] then false
    else
      var n := |ops| - 1;
      var t := Run(map[], ops[..n]);
      match ops[n]
      case DoCached(k, _, _) => (k == key && Allowed(t, key, Cached)) || CachedSincePruned(ops[..n], key)
      case DoPruned(k) => !(k == key && Allowed(t, key, Pruned)) && CachedSincePruned(ops[..n], key)
      case _ => CachedSincePruned(ops[..n], key)
  }

  /** From an empty database, a row holds a path exactly when it was cached since it was last
      pruned, whatever its state is now. */
  lemma {:induction false} PathHeldExactly(ops: seq<Op>, key: Key)
    ensures CachedSincePruned(ops, key) <==>
              key in Run(map[], ops) && Run(map[], ops)[key].data.filePath.Some?
  {
    if ops != [] {
      var n := |ops| - 1;
      var t := Run(map[], ops[..n]);
      PathHeldExactly(ops[..n], key);
      if ops[n].DoDiscover? { NewRowHasNoPath(t, ops[n].show, ops[n].listing, ops[n].now, key); }
    }
  }

  lemma NewRowHasNoPath(t: Table, show: ShowSlug, listing: seq<EpisodeMeta>, now: Timestamp, key: Key)
    ensures var t' := Discover(t, show, listing, now);
            && (key in t ==> key in t' && t'[key].data.filePath == t[key].data.filePath)
            && (key in t' && key !in t ==> t'[key].data.filePath.None?)
  {
    DiscoverRow(t, show, listing, now, key);
  }

  lemma RunStep(t: Table, ops: seq<Op>, op: Op)
    ensures Run(t, ops + [op]) == Step(Run(t, ops), op)
  {
    assert (ops + [op])[..|ops|] == ops;
  }

  lemma ListedIsFound(key: Key, m: EpisodeMeta, now: Timestamp, ops: seq<Op>)
    requires m.id == key.id && ops == [DoDiscover(key.show, [m], now)]
    ensures key in Run(map[], ops) && Run(map[], ops)[key].state == Discovered
  {
    assert ops[..0] == [];
    DiscoverRow(map[], key.show, [m], now, key);
    assert [m][0].id == key.id;
  }

  /** From anywhere but a transfer under way, a row can be fetched. */
  lemma FetchedIsCached(t: Table, key: Key, file: CachedFile, now: Timestamp)
    requires Allowed(t, key, Downloading)
    ensures var t' := Step(Step(t, DoDownloading(key)), DoCached(key, file, now));
            key in t' && t'[key].state == Cached && t'[key].data.filePath == Some(file.filePath)
  {
  }

  /** A listed episode that is fetched is cached. */
  lemma CachedIsReachable(key: Key, m: EpisodeMeta, file: CachedFile, now: Timestamp) returns (ops: seq<Op>)
    requires m.id == key.id
    ensures key in Run(map[], ops) && Run(map[], ops)[key].state == Cached
    ensures Run(map[], ops)[key].data.filePath == Some(file.filePath)
  {
    var found := [DoDiscover(key.show, [m], now)];
    ListedIsFound(key, m, now, found);
    FetchedIsCached(Run(map[], found), key, file, now);
    RunStep(map[], found, DoDownloading(key));
    RunStep(map[], found + [DoDownloading(key)], DoCached(key, file, now));
    ops := found + [DoDownloading(key)] + [DoCached(key, file, now)];
  }

  /** So a path outlives the cached state: a cached row that is fetched again, and fails, still
      holds it. */
  lemma PathOutlivesCached(ops: seq<Op>, key: Key, why: ErrorClass)
    requires key in Run(map[], ops) && Run(map[], ops)[key].state == Cached
    ensures var again := Run(map[], ops + [DoDownloading(key)]);
            var failed := Run(map[], ops + [DoDownloading(key)] + [DoFailed(key, why)]);
            && again[key].state == Downloading && failed[key].state == Failed(why)
            && again[key].data.filePath.Some? && failed[key].data.filePath == again[key].data.filePath
  {
    RunKeepsRows(map[], ops);
    RunStep(map[], ops, DoDownloading(key));
    RunStep(map[], ops + [DoDownloading(key)], DoFailed(key, why));
  }

  // ----- discovered once -----

  /** The ids of `show` reported new over a whole run, in order. */
  function Reported(t: Table, ops: seq<Op>, show: ShowSlug): seq<EpisodeId> {
    if ops == [] then []
    else
      var n := |ops| - 1;
      Reported(t, ops[..n], show)
      + if ops[n].DoDiscover? && ops[n].show == show
        then News(Run(t, ops[..n]), show, ops[n].listing, ops[n].now) else []
  }

  ghost predicate Distinct<T>(s: seq<T>) {
    forall i, j :: 0 <= i < j < |s| ==> s[i] != s[j]
  }

  lemma {:induction false} NewsDistinct(t: Table, show: ShowSlug, listing: seq<EpisodeMeta>, now: Timestamp)
    ensures Distinct(News(t, show, listing, now))
  {
    if listing != [] {
      var n := |listing| - 1;
      NewsDistinct(t, show, listing[..n], now);
      NewsAreNewRows(t, show, listing[..n], now, listing[n].id);
    }
  }

  lemma {:induction false} NewsAreNewRows(
    t: Table, show: ShowSlug, listing: seq<EpisodeMeta>, now: Timestamp, id: EpisodeId)
    ensures id in News(t, show, listing, now) <==>
              Key(show, id) in Discover(t, show, listing, now) && Key(show, id) !in t
  {
    if listing != [] {
      var n := |listing| - 1;
      NewsAreNewRows(t, show, listing[..n], now, id);
      DiscoverRow(t, show, listing[..n], now, Key(show, id));
    }
  }

  /** Over any run, with lifecycle steps and repeated listings in between, a row that appears
      was reported new, and nothing else ever was. */
  lemma {:induction false} ReportedAreNewRows(t: Table, ops: seq<Op>, show: ShowSlug, id: EpisodeId)
    ensures id in Reported(t, ops, show) <==> Key(show, id) in Run(t, ops) && Key(show, id) !in t
  {
    if ops != [] {
      var n := |ops| - 1;
      var before, key := Run(t, ops[..n]), Key(show, id);
      ReportedAreNewRows(t, ops[..n], show, id);
      StepIsLegal(before, ops[n], key);
      if key in t { RowsStay(t, ops[..n], key); }
      if ops[n].DoDiscover? {
        if ops[n].show == show { NewsAreNewRows(before, show, ops[n].listing, ops[n].now, id); }
        DiscoverRow(before, ops[n].show, ops[n].listing, ops[n].now, key);
      }
    }
  }

  /** ... and no id is ever reported twice. */
  lemma {:induction false} ReportedOnce(t: Table, ops: seq<Op>, show: ShowSlug)
    ensures Distinct(Reported(t, ops, show))
  {
    if ops != [] {
      var n := |ops| - 1;
      ReportedOnce(t, ops[..n], show);
      if ops[n].DoDiscover? && ops[n].show == show {
        var before := Run(t, ops[..n]);
        var old', news := Reported(t, ops[..n], show), News(before, show, ops[n].listing, ops[n].now);
        NewsDistinct(before, show, ops[n].listing, ops[n].now);
        forall i, j | 0 <= i < |old'| && 0 <= j < |news| ensures old'[i] != news[j] {
          ReportedAreNewRows(t, ops[..n], show, old'[i]);
          NewsAreNewRows(before, show, ops[n].listing, ops[n].now, news[j]);
        }
      }
    }
  }

  /** Rows are never removed. */
  lemma {:induction false} RowsStay(t: Table, ops: seq<Op>, key: Key)
    requires key in t
    ensures key in Run(t, ops)
  {
    if ops != [] {
      RowsStay(t, ops[..|ops| - 1], key);
      StepIsLegal(Run(t, ops[..|ops| - 1]), ops[|ops| - 1], key);
    }
  }

  // ----- the heal -----

  /** With a clock that may show fractions of a second, the heal spares a live transfer that
      reported within the window (by a second's margin) and catches one that has been silent
      for longer (by a second's margin). */
  lemma HealMargin(t: Table, show: ShowSlug, cutoff: Timestamp, key: Key)
    requires key in t && key.show == show && t[key].state.Downloading? && t[key].data.progressAt.Some?
    ensures Nanos(t[key].data.progressAt.value) >= Nanos(cutoff) + 1000000000 ==>
              ResetStale(t, show, cutoff)[key] == t[key]
    ensures Nanos(t[key].data.progressAt.value) + 1000000000 <= Nanos(cutoff) ==>
              ResetStale(t, show, cutoff)[key].state == Failed(Network)
  {
    var at := t[key].data.progressAt.value;
    if Nanos(at) >= Nanos(cutoff) + 1000000000 { SecondApart(cutoff, at); }
    if Nanos(at) + 1000000000 <= Nanos(cutoff) { SecondApart(at, cutoff); }
  }

  /** The row is downloading and has not reported, or was failed by a heal since. */
  predicate Silent(r: Record) {
    (r.state.Downloading? && r.data.progressAt.None?) || r.state == Failed(Network)
  }

  /** A step on behalf of the download of `key`, once it has started. */
  predicate Continues(op: Op, key: Key) {
    (op.DoProgress? && op.key == key) || (op.DoCached? && op.key == key) || (op.DoFailed? && op.key == key)
  }

  lemma SilentStep(t: Table, op: Op, key: Key)
    requires key in t && Silent(t[key]) && !Continues(op, key)
    ensures key in Step(t, op) && Silent(Step(t, op)[key])
  {
    if op.DoDiscover? { DiscoverRow(t, op.show, op.listing, op.now, key); }
  }

  lemma {:induction false} SilentRun(t: Table, ops: seq<Op>, key: Key)
    requires key in t && Silent(t[key]) && forall i :: 0 <= i < |ops| ==> !Continues(ops[i], key)
    ensures key in Run(t, ops) && Silent(Run(t, ops)[key])
  {
    if ops != [] {
      var n := |ops| - 1;
      SilentRun(t, ops[..n], key);
      SilentStep(Run(t, ops[..n]), ops[n], key);
    }
  }

  /** A process that dies between starting a download and its first report of progress leaves a row
      that the next heal of the show fails, at whatever time and whatever else happened since. */
  lemma DeadStartIsHealed(t: Table, ops: seq<Op>, key: Key, cutoff: Timestamp)
    requires Allowed(t, key, Downloading)
    requires forall i :: 0 <= i < |ops| ==> !Continues(ops[i], key)
    ensures var t' := ResetStale(Run(MarkDownloading(t, key), ops), key.show, cutoff);
            key in t' && t'[key].state == Failed(Network) && CanTransition(t'[key].state, Downloading)
  {
    SilentRun(MarkDownloading(t, key), ops, key);
  }

  // ----- the rows of one show -----

  function IdsOf(t: Table, show: ShowSlug): set<EpisodeId> {
    set key | key in t && key.show == show :: key.id
  }

  function StampsOf(t: Table, show: ShowSlug): Stamps {
    map id | id in IdsOf(t, show) && Key(show, id) in t :: t[Key(show, id)].data.publishedAt
  }

  /** The ids of a show in stored order, newest first. */
  ghost function Ordered(t: Table, show: ShowSlug): seq<EpisodeId> {
    NewestFirst(StampsOf(t, show))
  }

  lemma OrderedRows(t: Table, show: ShowSlug)
    ensures Distinct(Ordered(t, show))
    ensures forall id: EpisodeId :: id in Ordered(t, show) <==> Key(show, id) in t
    ensures Sorted(StampsOf(t, show), Ordered(t, show))
  {
    NewestFirstSorted(StampsOf(t, show));
    SortedDistinct(StampsOf(t, show), Ordered(t, show));
  }

  /** Rows may change in any way that keeps their publication time: the order stays. */
  lemma OrderedFrame(t: Table, t': Table, show: ShowSlug)
    requires forall id: EpisodeId :: Key(show, id) in t <==> Key(show, id) in t'
    requires forall id: EpisodeId :: Key(show, id) in t ==>
               t[Key(show, id)].data.publishedAt == t'[Key(show, id)].data.publishedAt
    ensures Ordered(t, show) == Ordered(t', show)
  {
    assert StampsOf(t, show) == StampsOf(t', show);
  }
}
