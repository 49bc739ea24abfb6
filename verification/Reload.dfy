/** Swapping in a new configuration while the daemon runs. */
module Reload {
  import opened Wrappers
  import opened Domain
  import opened Episodes

  datatype ShowPoll = ShowPoll(slug: ShowSlug, interval: nat)

  datatype DaemonConfig = DaemonConfig(
    bind: string, dataDir: Path, controlSocket: Path, concurrency: nat, shows: seq<ShowPoll>)

  /** A library handle, as far as reloads go: its configuration and which download engine, that
      is which permit semaphore, it uses. */
  datatype Handle = Handle(config: DaemonConfig, downloader: nat)

  datatype ReloadError =
    | LoadFailed
    | BindChanged
    | DataDirChanged
    | ControlSocketChanged
    | ProvidersFailed
    | ClientFailed
    | NoReceivers

  /** Changes that need a restart abort the whole reload. */
  function Guard(before: DaemonConfig, after: DaemonConfig): Result<(), ReloadError> {
    if before.bind != after.bind then Failure(BindChanged)
    else if before.dataDir != after.dataDir then Failure(DataDirChanged)
    else if before.controlSocket != after.controlSocket then Failure(ControlSocketChanged)
    else Success(())
  }

  /** What a reload meets on its way: the parsed configuration, the provider registry, a new
      download client, and the identity such a client would have. */
  datatype Attempted = Attempted(loaded: Option<DaemonConfig>, providersBuild: bool, clientBuilds: bool, newEngine: nat)

  function Reloaded(current: Handle, config: DaemonConfig, a: Attempted): Result<Handle, ReloadError> {
    if !a.providersBuild then Failure(ProvidersFailed)
    else if config.concurrency == current.config.concurrency then Success(Handle(config, current.downloader))
    else if !a.clientBuilds then Failure(ClientFailed)
    else Success(Handle(config, a.newEngine))
  }

  // ----- the channel -----

  /** The versioned watch channel that serves the current handle. */
  class Channel {
    var value: Handle
    var receivers: nat
    ghost var history: seq<Handle>

    ghost predicate Valid()
      reads this
    {
      history != [] && history[|history| - 1] == value && Lineage(history)
    }

    constructor (first: Handle, receivers: nat)
      ensures Valid() && history == [first] && this.receivers == receivers
    {
      value, this.receivers, history := first, receivers, [first];
    }

    /** Load, guard, rebuild and publish. On any error the channel is untouched. */
    method Apply(a: Attempted) returns (r: Result<Handle, ReloadError>)
      requires Valid() && forall h :: h in history ==> a.newEngine != h.downloader
      modifies this
      ensures Valid() && receivers == old(receivers)
      ensures r.Failure? ==> value == old(value) && history == old(history)
      ensures r.Success? ==>
                && history == old(history) + [r.value] && value == r.value
                && Some(r.value.config) == a.loaded && Reloads(old(value), r.value)
                && (r.value.downloader == old(value).downloader || r.value.downloader == a.newEngine)
      ensures r.Success? <==>
                && a.loaded.Some? && SameRestartOnly(old(value).config, a.loaded.value) && a.providersBuild
                && (a.loaded.value.concurrency == old(value).config.concurrency || a.clientBuilds)
                && receivers > 0
      ensures r.Failure? ==>
                var before := old(value).config;
                if a.loaded.None? then r.error == LoadFailed
                else if a.loaded.value.bind != before.bind then r.error == BindChanged
                else if a.loaded.value.dataDir != before.dataDir then r.error == DataDirChanged
                else if a.loaded.value.controlSocket != before.controlSocket then r.error == ControlSocketChanged
                else if !a.providersBuild then r.error == ProvidersFailed
                else if a.loaded.value.concurrency != before.concurrency && !a.clientBuilds then r.error == ClientFailed
                else r.error == NoReceivers
    {
      if a.loaded.None? { return Failure(LoadFailed); }
      var guarded := Guard(value.config, a.loaded.value);
      if guarded.Failure? { return Failure(guarded.error); }
      var library := Reloaded(value, a.loaded.value, a);
      if library.Failure? { return library; }
      if receivers == 0 { return Failure(NoReceivers); }
      LineageGrows(history, library.value);
      history := history + [library.value];
      value := library.value;
      return library;
    }
  }

  /** Every hangup signal tries one reload; a failed one leaves the previous handle serving. */
  method OnSighup(tx: Channel, hangups: seq<Attempted>) returns (applied: nat)
    requires tx.Valid()
    requires forall i, h :: 0 <= i < |hangups| && h in tx.history ==> hangups[i].newEngine != h.downloader
    requires forall i, j :: 0 <= i < j < |hangups| ==> hangups[i].newEngine != hangups[j].newEngine
    modifies tx
    ensures tx.Valid() && old(tx.history) <= tx.history && |tx.history| == |old(tx.history)| + applied
    ensures applied <= |hangups| && (applied == 0 ==> tx.value == old(tx.value))
    ensures var before, after := old(tx.value).config, tx.value.config;
            after.bind == before.bind && after.dataDir == before.dataDir && after.controlSocket == before.controlSocket
  {
    applied := 0;
    ghost var start := |tx.history| - 1;
    for i := 0 to |hangups|
      invariant tx.Valid() && old(tx.history) <= tx.history && |tx.history| == |old(tx.history)| + applied
      invariant applied <= i && (applied == 0 ==> tx.value == old(tx.value))
      invariant forall k, h :: i <= k < |hangups| && h in tx.history ==> hangups[k].newEngine != h.downloader
    {
      var r := tx.Apply(hangups[i]);
      if r.Success? { applied := applied + 1; }
    }
    RestartOnlyNeverChanges(tx.history, start, |tx.history| - 1);
  }

  // ----- lineages -----

  predicate SameRestartOnly(a: DaemonConfig, b: DaemonConfig) {
    a.bind == b.bind && a.dataDir == b.dataDir && a.controlSocket == b.controlSocket
  }

  /** `b` may follow `a`: no restart-only change, and the download engine is shared exactly when
      the concurrency stays. */
  predicate Reloads(a: Handle, b: Handle) {
    SameRestartOnly(a.config, b.config) && (a.downloader == b.downloader <==> a.config.concurrency == b.config.concurrency)
  }

  /** The handles served so far; an engine that is replaced is replaced by a new one. */
  ghost predicate Lineage(h: seq<Handle>) {
    && (forall i :: 0 <= i < |h| - 1 ==> Reloads(h[i], h[i + 1]))
    && (forall i, j :: 0 <= i < j < |h| && h[i].downloader == h[j].downloader ==> h[j - 1].downloader == h[j].downloader)
  }

  lemma LineageGrows(h: seq<Handle>, next: Handle)
    requires h != [] && Lineage(h) && Reloads(h[|h| - 1], next)
    requires next.downloader == h[|h| - 1].downloader || forall g :: g in h ==> g.downloader != next.downloader
    ensures Lineage(h + [next])
  {
    var all := h + [next];
    forall i, j | 0 <= i < j < |all| && all[i].downloader == all[j].downloader
      ensures all[j - 1].downloader == all[j].downloader
    {
      if j < |h| { assert h[i].downloader == h[j].downloader; } else { assert h[i] in h; }
    }
  }

  /** No reload ever changes a restart-only setting. */
  lemma {:induction false} RestartOnlyNeverChanges(h: seq<Handle>, i: nat, j: nat)
    requires Lineage(h) && i <= j < |h|
    ensures h[i].config.bind == h[j].config.bind && h[i].config.dataDir == h[j].config.dataDir
    ensures h[i].config.controlSocket == h[j].config.controlSocket
    decreases j - i
  {
    if i < j {
      RestartOnlyNeverChanges(h, i, j - 1);
      assert Reloads(h[j - 1], h[j]);
    }
  }

  /** Two generations share their permits exactly when no reload between them changed the
      concurrency. */
  lemma {:induction false} SharedUntilChanged(h: seq<Handle>, i: nat, j: nat)
    requires Lineage(h) && i <= j < |h|
    ensures h[i].downloader == h[j].downloader
            <==> forall k :: i <= k < j ==> h[k].config.concurrency == h[k + 1].config.concurrency
    decreases j - i
  {
    if i < j {
      SharedUntilChanged(h, i, j - 1);
      assert Reloads(h[j - 1], h[j]);
    }
  }

  /** All users of one engine agree on its limit. */
  lemma {:induction false} OneLimitPerEngine(h: seq<Handle>, i: nat, j: nat)
    requires Lineage(h) && i <= j < |h| && h[i].downloader == h[j].downloader
    ensures h[i].config.concurrency == h[j].config.concurrency
    decreases j - i
  {
    if i < j {
      assert h[j - 1].downloader == h[j].downloader;
      OneLimitPerEngine(h, i, j - 1);
      assert Reloads(h[j - 1], h[j]);
    }
  }
}
