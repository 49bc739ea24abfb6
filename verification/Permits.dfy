/** Download permits: every fetch of every library generation holds one permit of its engine for
    all its attempts. */
module Permits {
  import opened Download
  import opened Reload

  /** Where one fetch stands, and how many attempts it has made. */
  datatype Phase = Waiting | Holding(attempts: nat) | Over(attempts: nat)

  /** A fetch of the library generation `owner`. */
  datatype Transfer = Transfer(owner: nat, phase: Phase)

  datatype Pool = Pool(history: seq<Handle>, transfers: seq<Transfer>)

  datatype Event =
    | Swap(next: Handle)
    | Begin(owner: nat)
    | Acquire(i: nat)
    | Try(i: nat, retry: bool)
    | Abandon(i: nat)

  ghost predicate Formed(p: Pool) {
    p.history != [] && forall i :: 0 <= i < |p.transfers| ==> p.transfers[i].owner < |p.history|
  }

  function EngineOf(p: Pool, i: nat): nat
    requires i < |p.transfers| && p.transfers[i].owner < |p.history|
  {
    p.history[p.transfers[i].owner].downloader
  }

  /** The fetches that hold a permit of engine `d`. */
  ghost function Holders(p: Pool, d: nat): set<nat>
    requires Formed(p)
  {
    set i | 0 <= i < |p.transfers| && p.transfers[i].phase.Holding? && EngineOf(p, i) == d
  }

  ghost function AllHolders(p: Pool): set<nat> {
    set i | 0 <= i < |p.transfers| && p.transfers[i].phase.Holding?
  }

  /** What may happen next: a reload; a fetch that begins on any generation, gets a free permit,
      makes an attempt, or is dropped. */
  ghost predicate Enabled(p: Pool, e: Event)
    requires Formed(p)
  {
    match e
    case Swap(next) => Lineage(p.history + [next])
    case Begin(owner) => owner < |p.history|
    case Acquire(i) =>
      && i < |p.transfers| && p.transfers[i].phase.Waiting?
      && |Holders(p, EngineOf(p, i))| < p.history[p.transfers[i].owner].config.concurrency
    case Try(i, _) => i < |p.transfers| && p.transfers[i].phase.Holding?
    case Abandon(i) => i < |p.transfers| && !p.transfers[i].phase.Over?
  }

  /** A failed attempt is repeated under the same permit while retries remain; then the permit
      is released. */
  function AfterTry(attempts: nat, retry: bool): Phase {
    if retry && attempts < MAX_RETRIES then Holding(attempts + 1) else Over(attempts + 1)
  }

  ghost function Next(p: Pool, e: Event): (p': Pool)
    requires Formed(p)
    ensures Formed(p')
  {
    if !Enabled(p, e) then p
    else
      match e
      case Swap(next) => Pool(p.history + [next], p.transfers)
      case Begin(owner) => Pool(p.history, p.transfers + [Transfer(owner, Waiting)])
      case Acquire(i) => Pool(p.history, p.transfers[i := p.transfers[i].(phase := Holding(0))])
      case Try(i, retry) =>
        Pool(p.history, p.transfers[i := p.transfers[i].(phase := AfterTry(p.transfers[i].phase.attempts, retry))])
      case Abandon(i) =>
        var made := if p.transfers[i].phase.Holding? then p.transfers[i].phase.attempts else 0;
        Pool(p.history, p.transfers[i := p.transfers[i].(phase := Over(made))])
  }

  ghost function Run(first: Handle, events: seq<Event>): (p: Pool)
    ensures Formed(p)
  {
    if events == [] then Pool([first], [])
    else Next(Run(first, events[..|events| - 1]), events[|events| - 1])
  }

  // ----- the limit -----

  ghost predicate WithinLimits(p: Pool)
    requires Formed(p)
  {
    && Lineage(p.history)
    && (forall k :: 0 <= k < |p.history| ==> |Holders(p, p.history[k].downloader)| <= p.history[k].config.concurrency)
    && (forall i :: 0 <= i < |p.transfers| ==> AttemptsOk(p.transfers[i].phase))
  }

  predicate AttemptsOk(phase: Phase) {
    match phase
    case Waiting => true
    case Holding(attempts) => attempts <= MAX_RETRIES
    case Over(attempts) => attempts <= 1 + MAX_RETRIES
  }

  lemma HoldersShrink(p: Pool, q: Pool, d: nat)
    requires Formed(p) && Formed(q) && Holders(q, d) <= Holders(p, d)
    ensures |Holders(q, d)| <= |Holders(p, d)|
  {
    var rest := Holders(p, d) - Holders(q, d);
    assert Holders(p, d) == Holders(q, d) + rest;
  }

  /** Taking a permit adds one holder to one engine. */
  lemma AcquireAdds(p: Pool, i: nat, d: nat)
    requires Formed(p) && Enabled(p, Acquire(i))
    ensures Holders(Next(p, Acquire(i)), d) == if EngineOf(p, i) == d then Holders(p, d) + {i} else Holders(p, d)
  {
    var q := Next(p, Acquire(i));
    forall j: nat ensures j in Holders(q, d) <==> j in Holders(p, d) || (j == i && EngineOf(p, i) == d) {
      if j < |p.transfers| && j != i { assert q.transfers[j] == p.transfers[j]; }
    }
  }

  lemma SameLimit(h: seq<Handle>, i: nat, j: nat)
    requires Lineage(h) && i < |h| && j < |h| && h[i].downloader == h[j].downloader
    ensures h[i].config.concurrency == h[j].config.concurrency
  {
    if i <= j { OneLimitPerEngine(h, i, j); } else { OneLimitPerEngine(h, j, i); }
  }

  lemma AcquireStep(p: Pool, i: nat, k: nat)
    requires Formed(p) && WithinLimits(p) && Enabled(p, Acquire(i)) && k < |p.history|
    ensures |Holders(Next(p, Acquire(i)), p.history[k].downloader)| <= p.history[k].config.concurrency
  {
    AcquireAdds(p, i, p.history[k].downloader);
    if EngineOf(p, i) == p.history[k].downloader { SameLimit(p.history, k, p.transfers[i].owner); }
  }

  /** A new generation either shares the engine before it, or has one nobody holds yet. */
  lemma SwapStep(p: Pool, next: Handle, k: nat)
    requires Formed(p) && WithinLimits(p) && Enabled(p, Swap(next)) && k <= |p.history|
    ensures var q := Next(p, Swap(next));
            |Holders(q, q.history[k].downloader)| <= q.history[k].config.concurrency
  {
    var q, n := Next(p, Swap(next)), |p.history|;
    assert forall d :: Holders(q, d) == Holders(p, d);
    if k == n {
      if Holders(q, next.downloader) != {} {
        var i :| i in Holders(q, next.downloader);
        OneLimitPerEngine(q.history, p.transfers[i].owner, n);
        assert p.history[p.transfers[i].owner].downloader == next.downloader;
      }
    }
  }

  lemma SwapKeepsLimits(p: Pool, next: Handle)
    requires Formed(p) && WithinLimits(p) && Enabled(p, Swap(next))
    ensures WithinLimits(Next(p, Swap(next)))
  {
    forall k | 0 <= k <= |p.history|
      ensures var q := Next(p, Swap(next)); |Holders(q, q.history[k].downloader)| <= q.history[k].config.concurrency
    {
      SwapStep(p, next, k);
    }
  }

  lemma AcquireKeepsLimits(p: Pool, i: nat)
    requires Formed(p) && WithinLimits(p) && Enabled(p, Acquire(i))
    ensures WithinLimits(Next(p, Acquire(i)))
  {
    forall k | 0 <= k < |p.history|
      ensures |Holders(Next(p, Acquire(i)), p.history[k].downloader)| <= p.history[k].config.concurrency
    {
      AcquireStep(p, i, k);
    }
  }

  /** Beginning, trying and abandoning give nobody a permit. */
  lemma OthersAddNoHolder(p: Pool, e: Event, d: nat)
    requires Formed(p) && !e.Swap? && !e.Acquire?
    ensures Next(p, e).history == p.history && Holders(Next(p, e), d) <= Holders(p, d)
  {
  }

  lemma OthersKeepAttempts(p: Pool, e: Event, i: nat)
    requires Formed(p) && WithinLimits(p) && !e.Swap? && !e.Acquire? && i < |Next(p, e).transfers|
    ensures AttemptsOk(Next(p, e).transfers[i].phase)
  {
  }

  lemma OthersKeepLimits(p: Pool, e: Event)
    requires Formed(p) && WithinLimits(p) && !e.Swap? && !e.Acquire?
    ensures WithinLimits(Next(p, e))
  {
    var q := Next(p, e);
    OthersAddNoHolder(p, e, 0);
    forall k | 0 <= k < |p.history| ensures |Holders(q, p.history[k].downloader)| <= p.history[k].config.concurrency {
      OthersAddNoHolder(p, e, p.history[k].downloader);
      HoldersShrink(p, q, p.history[k].downloader);
    }
    forall i | 0 <= i < |q.transfers| ensures AttemptsOk(q.transfers[i].phase) { OthersKeepAttempts(p, e, i); }
  }

  lemma StepKeepsLimits(p: Pool, e: Event)
    requires Formed(p) && WithinLimits(p)
    ensures WithinLimits(Next(p, e))
  {
    if Enabled(p, e) {
      if e.Swap? { SwapKeepsLimits(p, e.next); }
      else if e.Acquire? { AcquireKeepsLimits(p, e.i); }
      else { OthersKeepLimits(p, e); }
    }
  }

  /** In every interleaving of fetches, retries and reloads: no engine has more holders than its
      limit, and no fetch makes more than three attempts. */
  lemma {:induction false} LimitsAlwaysHold(first: Handle, events: seq<Event>)
    ensures WithinLimits(Run(first, events))
    ensures var p := Run(first, events);
            && (forall k :: 0 <= k < |p.history| ==>
                  |set i | 0 <= i < |p.transfers| && p.transfers[i].phase.Holding? && EngineOf(p, i) == p.history[k].downloader|
                  <= p.history[k].config.concurrency)
            && (forall i :: 0 <= i < |p.transfers| && !p.transfers[i].phase.Waiting? ==> p.transfers[i].phase.attempts <= 3)
  {
    if events == [] {
      assert Holders(Run(first, events), first.downloader) == {};
    } else {
      LimitsAlwaysHold(first, events[..|events| - 1]);
      StepKeepsLimits(Run(first, events[..|events| - 1]), events[|events| - 1]);
    }
  }

  /** The attempts fetch `i` makes in a run. */
  ghost function Attempted(first: Handle, events: seq<Event>, i: nat): nat {
    if events == [] then 0
    else
      var n := |events| - 1;
      Attempted(first, events[..n], i)
      + if events[n].Try? && events[n].i == i && Enabled(Run(first, events[..n]), events[n]) then 1 else 0
  }

  /** The count of a fetch is the number of its attempts, none before it has a permit; being dropped
      does not change it. */
  lemma {:induction false} AttemptsAreCounted(first: Handle, events: seq<Event>, i: nat)
    ensures var p, n := Run(first, events), Attempted(first, events, i);
            if i < |p.transfers| && !p.transfers[i].phase.Waiting? then p.transfers[i].phase.attempts == n else n == 0
  {
    if events != [] { AttemptsAreCounted(first, events[..|events| - 1], i); }
  }

  /** A transfer that is worth repeating keeps its permit for a second and a third attempt; one that
      is not, and any third attempt, gives it back. */
  lemma RetriesKeepThePermit(first: Handle, events: seq<Event>, i: nat, retry: bool)
    requires var p := Run(first, events); i < |p.transfers| && p.transfers[i].phase.Holding?
    ensures var before, after := Run(first, events).transfers[i].phase, Next(Run(first, events), Try(i, retry)).transfers[i].phase;
            && !after.Waiting? && after.attempts == before.attempts + 1
            && (after.Holding? <==> retry && before.attempts < 2)
  {
  }

  lemma AbandonFrees(p: Pool, i: nat, d: nat)
    requires Formed(p) && i < |p.transfers| && p.transfers[i].phase.Holding? && EngineOf(p, i) == d
    ensures var q := Next(p, Abandon(i));
            && q.history == p.history && |q.transfers| == |p.transfers|
            && AllHolders(q) == AllHolders(p) - {i}
            && |Holders(q, d)| < |Holders(p, d)|
            && forall j :: 0 <= j < |p.transfers| && j != i ==> q.transfers[j] == p.transfers[j]
  {
    var q := Next(p, Abandon(i));
    assert i in Holders(p, d);
    assert Holders(q, d) == Holders(p, d) - {i};
  }

  lemma FreePermitIsTaken(p: Pool, j: nat)
    requires Formed(p) && j < |p.transfers| && p.transfers[j].phase.Waiting?
    requires |Holders(p, EngineOf(p, j))| < p.history[p.transfers[j].owner].config.concurrency
    ensures Next(p, Acquire(j)).transfers[j].phase.Holding?
  {
  }

  /** A fetch that is dropped gives its permit back at once, and a waiting fetch of its generation
      can take it. */
  lemma DroppedFetchFreesItsPermit(first: Handle, events: seq<Event>, i: nat, j: nat)
    requires var p := Run(first, events); i < |p.transfers| && p.transfers[i].phase.Holding?
    requires var p := Run(first, events);
             j < |p.transfers| && p.transfers[j].phase.Waiting? && p.transfers[j].owner == p.transfers[i].owner
    ensures var p := Run(first, events);
            var q := Next(p, Abandon(i));
            AllHolders(q) == AllHolders(p) - {i} && Next(q, Acquire(j)).transfers[j].phase.Holding?
  {
    LimitsAlwaysHold(first, events);
    var p := Run(first, events);
    AbandonFrees(p, i, EngineOf(p, i));
    FreePermitIsTaken(Next(p, Abandon(i)), j);
  }

  /** While no reload changes the concurrency, the fetches of all generations together hold at
      most that many permits. */
  lemma OneLimitAcrossReloads(first: Handle, events: seq<Event>)
    requires forall h :: h in Run(first, events).history ==> h.config.concurrency == first.config.concurrency
    ensures |AllHolders(Run(first, events))| <= first.config.concurrency
  {
    var p := Run(first, events);
    LimitsAlwaysHold(first, events);
    FirstStays(first, events);
    forall i | i in AllHolders(p) ensures EngineOf(p, i) == first.downloader {
      assert forall k :: 0 <= k < |p.history| ==> p.history[k] in p.history;
      SharedUntilChanged(p.history, 0, p.transfers[i].owner);
    }
    assert AllHolders(p) == Holders(p, p.history[0].downloader);
  }

  lemma {:induction false} FirstStays(first: Handle, events: seq<Event>)
    ensures Run(first, events).history[0] == first
  {
    if events != [] { FirstStays(first, events[..|events| - 1]); }
  }

  // ----- and only then -----

  lemma RunStep(first: Handle, events: seq<Event>, e: Event)
    ensures Run(first, events + [e]) == Next(Run(first, events), e)
  {
    assert (events + [e])[..|events|] == events;
  }

  /** A fetch that begins and takes a free permit at once. */
  lemma BeginAndAcquire(p: Pool, owner: nat, d: nat)
    requires Formed(p) && owner < |p.history|
    requires |Holders(p, p.history[owner].downloader)| < p.history[owner].config.concurrency
    ensures var i, b := |p.transfers|, Next(p, Begin(owner));
            var q := Next(b, Acquire(i));
            && q.history == p.history
            && Holders(q, d) == (if d == p.history[owner].downloader then Holders(p, d) + {i} else Holders(p, d))
  {
    var b := Next(p, Begin(owner));
    SameHolders(p, owner, d);
    SameHolders(p, owner, p.history[owner].downloader);
    AcquireAdds(b, |p.transfers|, d);
  }

  lemma AllHoldersGrow(p: Pool, owner: nat)
    requires Formed(p) && owner < |p.history|
    requires |Holders(p, p.history[owner].downloader)| < p.history[owner].config.concurrency
    ensures var i, b := |p.transfers|, Next(p, Begin(owner));
            AllHolders(Next(b, Acquire(i))) == AllHolders(p) + {i} && i !in AllHolders(p)
  {
    var i, b := |p.transfers|, Next(p, Begin(owner));
    SameHolders(p, owner, p.history[owner].downloader);
    assert Enabled(b, Acquire(i));
    var q := Next(b, Acquire(i));
    forall j: nat ensures j in AllHolders(q) <==> j in AllHolders(p) || j == i {
      if j < i { assert q.transfers[j] == p.transfers[j]; }
    }
  }

  /** One more fetch of generation `owner` takes a free permit. */
  lemma FillOne(first: Handle, events: seq<Event>, owner: nat) returns (more: seq<Event>)
    requires var p := Run(first, events);
             owner < |p.history| && |Holders(p, p.history[owner].downloader)| < p.history[owner].config.concurrency
    ensures var p, q := Run(first, events), Run(first, more);
            var i, d := |p.transfers|, p.history[owner].downloader;
            && q.history == p.history
            && AllHolders(q) == AllHolders(p) + {i} && i !in AllHolders(p)
            && forall e :: Holders(q, e) == if e == d then Holders(p, e) + {i} else Holders(p, e)
  {
    var p := Run(first, events);
    RunStep(first, events, Begin(owner));
    RunStep(first, events + [Begin(owner)], Acquire(|p.transfers|));
    more := events + [Begin(owner)] + [Acquire(|p.transfers|)];
    forall e ensures Holders(Run(first, more), e)
      == if e == p.history[owner].downloader then Holders(p, e) + {|p.transfers|} else Holders(p, e)
    {
      BeginAndAcquire(p, owner, e);
    }
    BeginAndAcquire(p, owner, 0);
    AllHoldersGrow(p, owner);
  }

  lemma SameHolders(p: Pool, owner: nat, d: nat)
    requires Formed(p) && owner < |p.history|
    ensures Holders(Next(p, Begin(owner)), d) == Holders(p, d)
  {
    var q := Next(p, Begin(owner));
    forall j: nat ensures j in Holders(q, d) <==> j in Holders(p, d) {
      if j < |p.transfers| { assert q.transfers[j] == p.transfers[j]; }
    }
  }

  /** `n` more fetches take the free permits of one engine. */
  lemma {:induction false} Fill(first: Handle, events: seq<Event>, owner: nat, n: nat) returns (more: seq<Event>)
    requires var p := Run(first, events);
             owner < |p.history| && |Holders(p, p.history[owner].downloader)| + n <= p.history[owner].config.concurrency
    ensures var p, q := Run(first, events), Run(first, more);
            && q.history == p.history
            && |AllHolders(q)| == |AllHolders(p)| + n
            && forall e :: e != p.history[owner].downloader ==> Holders(q, e) == Holders(p, e)
    decreases n
  {
    if n == 0 {
      more := events;
    } else {
      var one := FillOne(first, events, owner);
      more := Fill(first, one, owner, n - 1);
    }
  }

  lemma JustSwapped(first: Handle, next: Handle)
    requires Lineage([first, next])
    ensures Run(first, [Swap(next)]) == Pool([first, next], [])
  {
    var swapped := [Swap(next)];
    assert swapped[..0] == [] && [first] + [next] == [first, next];
  }

  /** A reload that changes the concurrency lets the old and the new generation together hold
      more permits than either limit. */
  lemma ChangedLimitIsExceeded(first: Handle, next: Handle)
    requires Lineage([first, next]) && first.config.concurrency != next.config.concurrency
    ensures exists events :: |AllHolders(Run(first, events))| == first.config.concurrency + next.config.concurrency
  {
    JustSwapped(first, next);
    SharedUntilChanged([first, next], 0, 1);
    var p := Pool([first, next], []);
    assert Holders(p, first.downloader) == {} && Holders(p, next.downloader) == {} && AllHolders(p) == {};
    var both := FillBoth(first, next, [Swap(next)]);
    assert |AllHolders(Run(first, both))| == first.config.concurrency + next.config.concurrency;
  }

  lemma FillBoth(first: Handle, next: Handle, events: seq<Event>) returns (both: seq<Event>)
    requires first.downloader != next.downloader
    requires var p := Run(first, events);
             && p.history == [first, next] && AllHolders(p) == {}
             && Holders(p, first.downloader) == {} && Holders(p, next.downloader) == {}
    ensures |AllHolders(Run(first, both))| == first.config.concurrency + next.config.concurrency
  {
    var full := Fill(first, events, 0, first.config.concurrency);
    both := Fill(first, full, 1, next.config.concurrency);
  }
}
