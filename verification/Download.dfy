/** Streaming one audio file to disk: temp file, length check, atomic rename, bounded retry. */
module Download {
  import opened Wrappers
  import opened Domain
  import opened Episodes
  import opened Media

  type Bytes = seq<bv8>

  /** The file system: named files, and temp files that have not been renamed yet. */
  class FileSystem {
    var files: map<Path, Bytes>
    var temps: map<nat, Bytes>

    constructor ()
      ensures files == map[] && temps == map[]
    {
      files, temps := map[], map[];
    }
  }

  datatype DownloadError =
    | ClientFailure
    | NetworkFailure
    | Status(code: nat)
    | Truncated(expected: nat, actual: nat)
    | DiskFailure

  function Class(e: DownloadError): ErrorClass {
    match e
    case ClientFailure | NetworkFailure | Truncated(_, _) => Network
    case Status(_) => HttpStatus
    case DiskFailure => Disk
  }

  /** Whether trying the whole transfer again might help. */
  predicate Transient(e: DownloadError) {
    match e
    case NetworkFailure | Truncated(_, _) => true
    case Status(code) => code >= 500
    case ClientFailure | DiskFailure => false
  }

  datatype Downloaded = Downloaded(bytes: nat, blake3: Hash, mime: Option<AudioMime>)

  datatype TaskResult = Done | TaskLost | IoFailed

  datatype Chunk = Chunk(data: Bytes, writes: bool)

  /** What the network and the file system do during one attempt. */
  datatype Exchange = Exchange(
    connects: bool, status: nat, contentLength: Option<nat>, contentType: Option<string>,
    makesDirectory: bool, makesTemp: TaskResult, opensTemp: bool,
    chunks: seq<Chunk>, breaksOff: bool, flushes: bool, renames: TaskResult)

  function Concat(chunks: seq<Chunk>): Bytes {
    if chunks == [] then [] else Concat(chunks[..|chunks| - 1]) + chunks[|chunks| - 1].data
  }

  /** The whole body an exchange delivers. */
  function Body(x: Exchange): Bytes {
    Concat(x.chunks)
  }

  function Expected(source: Audio, x: Exchange): Option<nat> {
    if x.contentLength.Some? then x.contentLength else source.bytes
  }

  function MimeOf(source: Audio, x: Exchange): Option<AudioMime> {
    if x.contentType.Some? && "audio/" <= x.contentType.value
    then Some(ParseMime(x.contentType.value)) else source.mime
  }

  predicate AllWritten(chunks: seq<Chunk>) {
    forall i :: 0 <= i < |chunks| ==> chunks[i].writes
  }

  /** The exchange hands over a complete body, and every local step works. */
  predicate Complete(source: Audio, x: Exchange) {
    && x.connects && 200 <= x.status < 300
    && x.makesDirectory && x.makesTemp.Done? && x.opensTemp
    && AllWritten(x.chunks) && !x.breaksOff && x.flushes
    && (Expected(source, x).Some? ==> |Body(x)| == Expected(source, x).value)
    && x.renames.Done?
  }

  /** The error of an exchange that does not complete: the first thing that went wrong. */
  function FirstError(source: Audio, x: Exchange): DownloadError
    requires !Complete(source, x)
  {
    if !x.connects then NetworkFailure
    else if !(200 <= x.status < 300) then Status(x.status)
    else if !x.makesDirectory then DiskFailure
    else if x.makesTemp.TaskLost? then ClientFailure
    else if x.makesTemp.IoFailed? || !x.opensTemp || !AllWritten(x.chunks) then DiskFailure
    else if x.breaksOff then NetworkFailure
    else if !x.flushes then DiskFailure
    else if Expected(source, x).Some? && |Body(x)| != Expected(source, x).value
    then Truncated(Expected(source, x).value, |Body(x)|)
    else if x.renames.TaskLost? then ClientFailure
    else DiskFailure
  }

  function AttemptResult(hash: Bytes -> Hash, source: Audio, x: Exchange): Result<Downloaded, DownloadError> {
    if Complete(source, x) then Success(Downloaded(|Body(x)|, hash(Body(x)), MimeOf(source, x)))
    else Failure(FirstError(source, x))
  }

  lemma ConcatStep(chunks: seq<Chunk>, k: nat)
    requires k < |chunks|
    ensures Concat(chunks[..k + 1]) == Concat(chunks[..k]) + chunks[k].data
  {
    assert chunks[..k + 1][..k] == chunks[..k];
  }

  /** Progress reports are the running byte counts after each chunk, and never decrease. */
  ghost predicate RunningCounts(progress: seq<nat>, chunks: seq<Chunk>) {
    && (forall i :: 0 <= i < |progress| ==> i < |chunks| && progress[i] == |Concat(chunks[..i + 1])|)
    && (forall i, j :: 0 <= i < j < |progress| ==> progress[i] <= progress[j])
  }

  /** One attempt. Named files change only by the final rename, which puts the whole body in
      place; every other way out leaves them as they were, and no temp file behind. */
  method Attempt(disk: FileSystem, hash: Bytes -> Hash, source: Audio, dest: Path, x: Exchange)
    returns (r: Result<Downloaded, DownloadError>, progress: seq<nat>)
    modifies disk
    ensures r == AttemptResult(hash, source, x)
    ensures disk.files == if r.Success? then old(disk.files)[dest := Body(x)] else old(disk.files)
    ensures disk.temps == old(disk.temps)
    ensures RunningCounts(progress, x.chunks)
    ensures r.Success? && x.chunks != [] ==> progress != [] && progress[|progress| - 1] == r.value.bytes
  {
    progress := [];
    if !x.connects { return Failure(NetworkFailure), []; }
    if !(200 <= x.status < 300) { return Failure(Status(x.status)), []; }
    var expected := Expected(source, x);
    if !x.makesDirectory { return Failure(DiskFailure), []; }
    if x.makesTemp.TaskLost? { return Failure(ClientFailure), []; }
    if x.makesTemp.IoFailed? { return Failure(DiskFailure), []; }
    var temp := FreshTemp(disk.temps.Keys);
    disk.temps := disk.temps[temp := []];
    if !x.opensTemp { Drop(disk, temp, old(disk.temps)); return Failure(DiskFailure), []; }

    var written, hashed, wrote;
    wrote, written, hashed, progress := Stream(disk, temp, x.chunks);
    if !wrote { Drop(disk, temp, old(disk.temps)); return Failure(DiskFailure), progress; }
    if x.breaksOff { Drop(disk, temp, old(disk.temps)); return Failure(NetworkFailure), progress; }
    if !x.flushes { Drop(disk, temp, old(disk.temps)); return Failure(DiskFailure), progress; }
    if expected.Some? && written != expected.value {
      Drop(disk, temp, old(disk.temps));
      return Failure(Truncated(expected.value, written)), progress;
    }
    if x.renames.TaskLost? { Drop(disk, temp, old(disk.temps)); return Failure(ClientFailure), progress; }
    if x.renames.IoFailed? { Drop(disk, temp, old(disk.temps)); return Failure(DiskFailure), progress; }
    disk.files := disk.files[dest := disk.temps[temp]];
    Drop(disk, temp, old(disk.temps));
    return Success(Downloaded(written, hash(hashed), MimeOf(source, x))), progress;
  }

  /** Append every chunk to the temp file, hashing and counting along the way, up to the first
      write that fails. */
  method Stream(disk: FileSystem, temp: nat, chunks: seq<Chunk>)
    returns (wrote: bool, written: nat, hashed: Bytes, progress: seq<nat>)
    requires temp in disk.temps && disk.temps[temp] == []
    modifies disk`temps
    ensures temp in disk.temps && disk.temps == old(disk.temps)[temp := disk.temps[temp]]
    ensures wrote == AllWritten(chunks)
    ensures wrote ==> disk.temps[temp] == Concat(chunks) && hashed == Concat(chunks) && written == |hashed|
    ensures RunningCounts(progress, chunks)
    ensures wrote && chunks != [] ==> progress != [] && progress[|progress| - 1] == written
  {
    hashed, written, progress := [], 0, [];
    for k := 0 to |chunks|
      invariant disk.temps == old(disk.temps)[temp := Concat(chunks[..k])]
      invariant hashed == Concat(chunks[..k]) && written == |hashed|
      invariant AllWritten(chunks[..k])
      invariant |progress| == k
      invariant forall i :: 0 <= i < k ==> progress[i] == |Concat(chunks[..i + 1])| && progress[i] <= written
      invariant forall i, j :: 0 <= i < j < k ==> progress[i] <= progress[j]
      invariant k > 0 ==> progress[k - 1] == written
    {
      var chunk := chunks[k];
      ConcatStep(chunks, k);
      hashed := hashed + chunk.data;
      if !chunk.writes { return false, written, hashed, progress; }
      disk.temps := disk.temps[temp := disk.temps[temp] + chunk.data];
      written := written + |chunk.data|;
      progress := progress + [written];
    }
    assert chunks[..|chunks|] == chunks;
    wrote := true;
  }

  /** Dropping the handle removes the temp file. */
  method Drop(disk: FileSystem, temp: nat, ghost before: map<nat, Bytes>)
    requires temp !in before && disk.temps.Keys == before.Keys + {temp}
    requires forall t :: t in before ==> disk.temps[t] == before[t]
    modifies disk`temps
    ensures disk.temps == before
  {
    disk.temps := disk.temps - {temp};
  }

  method FreshTemp(used: set<nat>) returns (t: nat)
    ensures t !in used
  {
    t := 0;
    var rest := used;
    while rest != {}
      invariant rest <= used
      invariant forall u :: u in used && u !in rest ==> u < t
      decreases rest
    {
      var u :| u in rest;
      rest := rest - {u};
      if u >= t { t := u + 1; }
    }
  }

  // ----- retry -----

  const MAX_RETRIES: nat := 2

  /** The exchanges the outside world would offer, one for each attempt a fetch may make. */
  type Exchanges = s: seq<Exchange> | |s| == 1 + MAX_RETRIES ghost witness NoAnswer()

  ghost function NoAnswer(): (s: seq<Exchange>)
    ensures |s| == 1 + MAX_RETRIES
  {
    var x := Exchange(false, 0, None, None, false, Done, false, [], false, false, Done);
    [x, x, x]
  }

  /** A fetch keeps trying while failures are transient and exchanges remain. */
  function Deciding(hash: Bytes -> Hash, source: Audio, xs: seq<Exchange>): (k: nat)
    requires xs != []
    ensures k < |xs|
    ensures forall j :: 0 <= j < k ==>
              AttemptResult(hash, source, xs[j]).Failure? && Transient(AttemptResult(hash, source, xs[j]).error)
    ensures k < |xs| - 1 ==>
              AttemptResult(hash, source, xs[k]).Success? || !Transient(AttemptResult(hash, source, xs[k]).error)
  {
    var r := AttemptResult(hash, source, xs[0]);
    if r.Failure? && Transient(r.error) && |xs| > 1 then 1 + Deciding(hash, source, xs[1..]) else 0
  }

  function FetchResult(hash: Bytes -> Hash, source: Audio, xs: Exchanges): Result<Downloaded, DownloadError> {
    AttemptResult(hash, source, xs[Deciding(hash, source, xs)])
  }

  function FetchedBody(hash: Bytes -> Hash, source: Audio, xs: Exchanges): Bytes {
    Body(xs[Deciding(hash, source, xs)])
  }

  lemma {:induction false} DecidingUnique(hash: Bytes -> Hash, source: Audio, xs: seq<Exchange>, k: nat)
    requires k < |xs|
    requires forall j :: 0 <= j < k ==>
               AttemptResult(hash, source, xs[j]).Failure? && Transient(AttemptResult(hash, source, xs[j]).error)
    requires k < |xs| - 1 ==>
               AttemptResult(hash, source, xs[k]).Success? || !Transient(AttemptResult(hash, source, xs[k]).error)
    ensures k == Deciding(hash, source, xs)
  {
    if k > 0 { DecidingUnique(hash, source, xs[1..], k - 1); }
  }

  /** A complete exchange that comes after nothing but dropped connections, short bodies and server
      errors is delivered. */
  lemma DeliveredInTheEnd(hash: Bytes -> Hash, source: Audio, xs: Exchanges, k: nat)
    requires k < 3 && Complete(source, xs[k])
    requires forall j :: 0 <= j < k ==>
               !Complete(source, xs[j])
               && var e := FirstError(source, xs[j]); e.NetworkFailure? || e.Truncated? || (e.Status? && e.code >= 500)
    ensures FetchResult(hash, source, xs).Success? && FetchedBody(hash, source, xs) == Body(xs[k])
    ensures FetchResult(hash, source, xs).value.bytes == |Body(xs[k])|
    ensures FetchResult(hash, source, xs).value.blake3 == hash(Body(xs[k]))
  {
    DecidingUnique(hash, source, xs, k);
  }

  /** The first two transfers breaking off or failing at the server never fail a fetch by themselves;
      the error reported is that of the attempt that decided. */
  lemma FailedInTheEnd(hash: Bytes -> Hash, source: Audio, xs: Exchanges, k: nat)
    requires k < 3 && !Complete(source, xs[k])
    requires forall j :: 0 <= j < k ==>
               !Complete(source, xs[j])
               && var e := FirstError(source, xs[j]); e.NetworkFailure? || e.Truncated? || (e.Status? && e.code >= 500)
    requires k == 2 || FirstError(source, xs[k]).ClientFailure? || FirstError(source, xs[k]).DiskFailure?
             || (FirstError(source, xs[k]).Status? && FirstError(source, xs[k]).code < 500)
    ensures FetchResult(hash, source, xs) == Failure(FirstError(source, xs[k]))
  {
    DecidingUnique(hash, source, xs, k);
  }

  /** Fetch with retries: at most three attempts, each further one only after a transient
      failure. Success means the destination holds exactly the body whose size and hash are
      reported, with the promised size if one was promised; failure leaves every named file
      as it was. */
  method Fetch(disk: FileSystem, hash: Bytes -> Hash, source: Audio, dest: Path, xs: Exchanges)
    returns (r: Result<Downloaded, DownloadError>, attempts: nat)
    modifies disk
    ensures r == FetchResult(hash, source, xs)
    ensures 1 <= attempts <= 3 && attempts == Deciding(hash, source, xs) + 1
    ensures disk.temps == old(disk.temps)
    ensures r.Failure? ==> disk.files == old(disk.files)
    ensures r.Success? ==>
              && disk.files == old(disk.files)[dest := FetchedBody(hash, source, xs)]
              && r.value.bytes == |disk.files[dest]|
              && r.value.blake3 == hash(disk.files[dest])
              && (xs[attempts - 1].contentLength.Some? ==> |disk.files[dest]| == xs[attempts - 1].contentLength.value)
              && (xs[attempts - 1].contentLength.None? && source.bytes.Some? ==> |disk.files[dest]| == source.bytes.value)
              && (xs[attempts - 1].contentType.Some? && "audio/" <= xs[attempts - 1].contentType.value ==>
                    r.value.mime == Some(ParseMime(xs[attempts - 1].contentType.value)))
              && (!(xs[attempts - 1].contentType.Some? && "audio/" <= xs[attempts - 1].contentType.value) ==>
                    r.value.mime == source.mime)
    ensures r.Failure? && attempts < 3 ==>
              r.error.ClientFailure? || r.error.DiskFailure? || (r.error.Status? && r.error.code < 500)
    ensures forall j :: 0 <= j < attempts - 1 ==>
              var failed := AttemptResult(hash, source, xs[j]);
              failed.Failure? && (failed.error.NetworkFailure? || failed.error.Truncated?
                                  || (failed.error.Status? && failed.error.code >= 500))
  {
    attempts := 0;
    while true
      invariant attempts <= MAX_RETRIES
      invariant disk.files == old(disk.files) && disk.temps == old(disk.temps)
      invariant forall j :: 0 <= j < attempts ==>
                  AttemptResult(hash, source, xs[j]).Failure? && Transient(AttemptResult(hash, source, xs[j]).error)
      decreases MAX_RETRIES - attempts
    {
      var progress;
      r, progress := Attempt(disk, hash, source, dest, xs[attempts]);
      attempts := attempts + 1;
      if r.Success? || !Transient(r.error) || attempts > MAX_RETRIES { break; }
    }
    DecidingUnique(hash, source, xs, attempts - 1);
  }
}
