/** What one sync or verify does to the episode table and the media files, as functions of
    the state before and of everything the outside world answers. */
module World {
  import opened Wrappers
  import opened Domain
  import opened Timestamps
  import opened Retention
  import opened Episodes
  import opened Media
  import opened Download

  type Files = map<Path, Bytes>

  datatype World = World(table: Table, files: Files)

  // ----- the outside world -----

  datatype ProviderError =
    | UnknownProvider
    | MissingCredentials
    | ShowNotFound
    | Http
    | BadStatus(code: nat)
    | Unparseable
    | NoAudioAsset

  function ProviderClass(e: ProviderError): ErrorClass {
    match e
    case Http | UnknownProvider | MissingCredentials => Network
    case BadStatus(_) | ShowNotFound => HttpStatus
    case Unparseable | NoAudioAsset => Parse
  }

  datatype Listing = NotModified | Modified(episodes: seq<EpisodeMeta>)

  /** Everything a run learns from outside: the listing, the audio and transfers of each
      episode, probed durations, clock readings, and which paths the file system refuses to
      delete, stat or read. */
  datatype Upstream = Upstream(
    listing: Result<Listing, ProviderError>,
    meta: Result<(), ProviderError>,
    resolve: EpisodeId -> Result<Audio, ProviderError>,
    exchanges: EpisodeId -> Exchanges,
    probe: EpisodeId -> Option<nat>,
    finished: EpisodeId -> Timestamp,
    now: Timestamp,
    cutoff: Timestamp,
    refuses: Path -> bool,
    statFails: Path -> bool,
    readFails: Path -> bool)

  // ----- one download -----

  datatype Got = Got(file: CachedFile, body: Bytes)

  /** What fetching an episode's audio comes to: the file as recorded and its body, or the
      class of the failure. */
  function Fetched(hash: Bytes -> Hash, key: Key, up: Upstream): Result<Got, ErrorClass> {
    var audio := up.resolve(key.id);
    if audio.Failure? then Failure(ProviderClass(audio.error))
    else
      var r := FetchResult(hash, audio.value, up.exchanges(key.id));
      if r.Failure? then Failure(Class(r.error))
      else Success(Got(
        CachedFile(MediaPath(key, audio.value), r.value.bytes, r.value.blake3, r.value.mime, up.probe(key.id)),
        FetchedBody(hash, audio.value, up.exchanges(key.id))))
  }

  /** A fetched file sits at one of the episode's own paths, and its record describes it. */
  lemma FetchedFile(hash: Bytes -> Hash, key: Key, up: Upstream)
    requires Fetched(hash, key, up).Success?
    ensures var got := Fetched(hash, key, up).value;
            && Owns(key, got.file.filePath)
            && got.file.bytes == |got.body|
            && got.file.blake3 == hash(got.body)
  {
    var audio := up.resolve(key.id).value;
    assert MediaPath(key, audio) == PathText(key.show, Stem(key.id), ExtensionFor(audio));
  }

  predicate Arrives(hash: Bytes -> Hash, t: Table, key: Key, up: Upstream) {
    Allowed(t, key, Downloading) && Fetched(hash, key, up).Success?
  }

  /** Download one episode and record the outcome. When the first transition is refused, the
      refusal itself is recorded as a disk failure, wherever that is a legal edge. */
  function DownloadOne(hash: Bytes -> Hash, w: World, key: Key, up: Upstream): World {
    if !Allowed(w.table, key, Downloading) then World(MarkFailed(w.table, key, Disk), w.files)
    else
      var t := MarkDownloading(w.table, key);
      var r := Fetched(hash, key, up);
      if r.Failure? then World(MarkFailed(t, key, r.error), w.files)
      else World(MarkCached(t, key, r.value.file, up.finished(key.id)), w.files[r.value.file.filePath := r.value.body])
  }

  function Downloads(hash: Bytes -> Hash, w: World, show: ShowSlug, ids: seq<EpisodeId>, up: Upstream): World {
    if ids == [] then w
    else
      var n := |ids| - 1;
      DownloadOne(hash, Downloads(hash, w, show, ids[..n], up), Key(show, ids[n]), up)
  }

  function DownloadedCount(hash: Bytes -> Hash, w: World, show: ShowSlug, ids: seq<EpisodeId>, up: Upstream): nat {
    if ids == [] then 0
    else
      var n := |ids| - 1;
      DownloadedCount(hash, w, show, ids[..n], up)
      + if Arrives(hash, Downloads(hash, w, show, ids[..n], up).table, Key(show, ids[n]), up) then 1 else 0
  }

  // ----- planning -----

  function SizeOf(t: Table, key: Key): nat {
    if key in t then t[key].data.bytes.GetOr(0) else 0
  }

  /** The retention candidates of a list of ids, with recorded sizes, 0 where none is known. */
  function Candidates(t: Table, show: ShowSlug, ids: seq<EpisodeId>): (cs: seq<Candidate>)
    ensures |cs| == |ids|
    ensures forall i :: 0 <= i < |cs| ==> cs[i] == Candidate(ids[i], SizeOf(t, Key(show, ids[i])))
  {
    seq(|ids|, i requires 0 <= i < |ids| => Candidate(ids[i], SizeOf(t, Key(show, ids[i]))))
  }

  /** The ids of `ids` that lie in `s`, in order. */
  function Only(ids: seq<EpisodeId>, s: set<EpisodeId>): seq<EpisodeId> {
    if ids == [] then []
    else
      var n := |ids| - 1;
      Only(ids[..n], s) + if ids[n] in s then [ids[n]] else []
  }

  function Wanted(t: Table, show: ShowSlug, policy: Policy, window: seq<EpisodeId>): set<EpisodeId> {
    var kept := Ids(Kept(policy, Candidates(t, show, window)));
    set id | id in kept
  }

  predicate Fetchable(s: EpisodeState) {
    s.Discovered? || s.Failed? || s.Pruned?
  }

  predicate IsPending(t: Table, key: Key) {
    key in t && Fetchable(t[key].state)
  }

  function PendingIds(t: Table, show: ShowSlug, ids: seq<EpisodeId>): set<EpisodeId> {
    set id | id in ids && IsPending(t, Key(show, id))
  }

  /** The window episodes the policy wants and the disk lacks, in window order. */
  function Pending(t: Table, show: ShowSlug, policy: Policy, window: seq<EpisodeId>): seq<EpisodeId> {
    Only(window, Wanted(t, show, policy, window) * PendingIds(t, show, window))
  }

  // ----- pruning -----

  predicate IsCached(t: Table, key: Key) {
    key in t && t[key].state.Cached?
  }

  ghost function CachedIds(t: Table, show: ShowSlug): set<EpisodeId> {
    set id | id in Ordered(t, show) && IsCached(t, Key(show, id))
  }

  /** The cached rows of a show in stored order, with their real sizes. */
  ghost function CachedCandidates(t: Table, show: ShowSlug): seq<Candidate> {
    Candidates(t, show, CachedInOrder(t, show))
  }

  ghost function PrunePlan(t: Table, show: ShowSlug, policy: Policy): seq<EpisodeId> {
    Reversed(Ids(Doomed(policy, CachedCandidates(t, show))))
  }

  predicate Skipped(t: Table, key: Key, up: Upstream) {
    key in t && t[key].data.filePath.Some? && up.refuses(t[key].data.filePath.value)
  }

  /** The file goes first, then the row becomes a tombstone; a file that cannot be deleted
      keeps its row. */
  function PruneOne(w: World, key: Key, up: Upstream): World {
    if key !in w.table || Skipped(w.table, key, up) then w
    else
      var p := w.table[key].data.filePath;
      World(MarkPruned(w.table, key), if p.Some? then w.files - {p.value} else w.files)
  }

  function Prune(w: World, show: ShowSlug, ids: seq<EpisodeId>, up: Upstream): World {
    if ids == [] then w
    else
      var n := |ids| - 1;
      PruneOne(Prune(w, show, ids[..n], up), Key(show, ids[n]), up)
  }

  /** How many rows a pruning pass removes, and how many bytes that frees. */
  datatype Tally = Tally(count: nat, bytes: nat)

  function PruneFreed(w: World, show: ShowSlug, ids: seq<EpisodeId>, up: Upstream): Tally {
    if ids == [] then Tally(0, 0)
    else
      var n := |ids| - 1;
      var before := PruneFreed(w, show, ids[..n], up);
      var t := Prune(w, show, ids[..n], up).table;
      var key := Key(show, ids[n]);
      if key !in t || Skipped(t, key, up) then before
      else Tally(before.count + 1, before.bytes + SizeOf(t, key))
  }

  // ----- one sync -----

  datatype SyncReport = SyncReport(discovered: nat, downloaded: nat, pruned: nat)

  /** The part of a sync that follows once its window is known. */
  ghost function Settle(
    hash: Bytes -> Hash, w: World, show: ShowSlug, policy: Policy, window: seq<EpisodeId>, up: Upstream): World
  {
    var w' := Downloads(hash, w, show, Pending(w.table, show, policy, window), up);
    Prune(w', show, PrunePlan(w'.table, show, policy), up)
  }

  ghost function SettleDownloaded(
    hash: Bytes -> Hash, w: World, show: ShowSlug, policy: Policy, window: seq<EpisodeId>, up: Upstream): nat
  {
    DownloadedCount(hash, w, show, Pending(w.table, show, policy, window), up)
  }

  ghost function SettleFreed(
    hash: Bytes -> Hash, w: World, show: ShowSlug, policy: Policy, window: seq<EpisodeId>, up: Upstream): Tally
  {
    var w' := Downloads(hash, w, show, Pending(w.table, show, policy, window), up);
    PruneFreed(w', show, PrunePlan(w'.table, show, policy), up)
  }

  function ListedIds(episodes: seq<EpisodeMeta>): (ids: seq<EpisodeId>)
    ensures |ids| == |episodes| && forall i :: 0 <= i < |ids| ==> ids[i] == episodes[i].id
  {
    seq(|episodes|, i requires 0 <= i < |episodes| => episodes[i].id)
  }

  function Bounded<T>(s: seq<T>, limit: Option<nat>): seq<T> {
    if limit.Some? then Take(s, limit.value) else s
  }

  /** The table once leftovers are healed and a full listing, if any, is recorded. */
  function Listed(t: Table, show: ShowSlug, up: Upstream): Table {
    var healed := ResetStale(t, show, up.cutoff);
    if up.listing.Success? && up.listing.value.Modified? && up.meta.Success?
    then Discover(healed, show, up.listing.value.episodes, up.now) else healed
  }

  /** The window: the full listing, or the newest stored rows when nothing changed. */
  ghost function Window(t: Table, show: ShowSlug, limit: Option<nat>, up: Upstream): seq<EpisodeId>
    requires up.listing.Success?
  {
    if up.listing.value.Modified? then ListedIds(up.listing.value.episodes)
    else Bounded(Ordered(Listed(t, show, up), show), limit)
  }

  /** Only a failure to list the show stops a sync. */
  predicate ListsShow(up: Upstream) {
    up.listing.Success? && (up.listing.value.Modified? ==> up.meta.Success?)
  }

  ghost function Synced(
    hash: Bytes -> Hash, w: World, show: ShowSlug, policy: Policy, limit: Option<nat>, up: Upstream): World
  {
    var listed := World(Listed(w.table, show, up), w.files);
    if !ListsShow(up) then listed
    else Settle(hash, listed, show, policy, Window(w.table, show, limit, up), up)
  }

  function DiscoveredCount(t: Table, show: ShowSlug, up: Upstream): nat {
    if up.listing.Success? && up.listing.value.Modified? && up.meta.Success?
    then |News(ResetStale(t, show, up.cutoff), show, up.listing.value.episodes, up.now)| else 0
  }

  // ----- verification -----

  datatype FileProblem =
    | Missing
    | SizeMismatch(expected: nat, actual: nat)
    | HashMismatch
    | Unreadable

  /** How a cached row's file disagrees with the row, if it does. */
  function CheckFile(hash: Bytes -> Hash, files: Files, c: Columns, up: Upstream): Option<FileProblem> {
    if c.filePath.None? then Some(Missing)
    else
      var p := c.filePath.value;
      if up.statFails(p) then Some(Unreadable)
      else if p !in files then Some(Missing)
      else if c.bytes.Some? && |files[p]| != c.bytes.value then Some(SizeMismatch(c.bytes.value, |files[p]|))
      else if c.blake3.None? then None
      else if up.readFails(p) then Some(Unreadable)
      else if hash(files[p]) == c.blake3.value then None
      else Some(HashMismatch)
  }

  datatype VerifyOutcome = VerifyOutcome(id: EpisodeId, problem: FileProblem, fixed: bool)

  datatype VerifyReport = VerifyReport(checked: nat, intact: nat, problems: seq<VerifyOutcome>)

  predicate Damaged(hash: Bytes -> Hash, w: World, key: Key, up: Upstream) {
    key in w.table && CheckFile(hash, w.files, w.table[key].data, up).Some?
  }

  /** Check one row; with `fix`, download a damaged one again. */
  function VerifyOne(hash: Bytes -> Hash, w: World, key: Key, fix: bool, up: Upstream): World {
    if fix && Damaged(hash, w, key, up) then DownloadOne(hash, w, key, up) else w
  }

  function OutcomeOf(hash: Bytes -> Hash, w: World, key: Key, fix: bool, up: Upstream): Option<VerifyOutcome> {
    if Damaged(hash, w, key, up)
    then Some(VerifyOutcome(key.id, CheckFile(hash, w.files, w.table[key].data, up).value, fix && Arrives(hash, w.table, key, up)))
    else None
  }

  function Verified(hash: Bytes -> Hash, w: World, show: ShowSlug, ids: seq<EpisodeId>, fix: bool, up: Upstream): World {
    if ids == [] then w
    else
      var n := |ids| - 1;
      VerifyOne(hash, Verified(hash, w, show, ids[..n], fix, up), Key(show, ids[n]), fix, up)
  }

  function Problems(
    hash: Bytes -> Hash, w: World, show: ShowSlug, ids: seq<EpisodeId>, fix: bool, up: Upstream): seq<VerifyOutcome>
  {
    if ids == [] then []
    else
      var n := |ids| - 1;
      var outcome := OutcomeOf(hash, Verified(hash, w, show, ids[..n], fix, up), Key(show, ids[n]), fix, up);
      Problems(hash, w, show, ids[..n], fix, up) + if outcome.Some? then [outcome.value] else []
  }

  ghost function CachedInOrder(t: Table, show: ShowSlug): seq<EpisodeId> {
    Only(Ordered(t, show), CachedIds(t, show))
  }
}
