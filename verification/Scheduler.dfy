/** The poll scheduler: a manager that rebuilds one loop per show for every library published on
    the watch channel, as interleaved atomic steps. */
module Scheduler {
  import opened Reload

  // ----- the system -----

  /** A show loop: about to choose between its timer and the channel, asleep in that choice,
      waiting for the poll permit, syncing with the permit held, or gone. */
  datatype Loop = Entering | Sleeping | WantPermit | Syncing | Exited

  /** One set of loops, built for the library published as `version`; it has its own permit. */
  datatype Generation = Generation(version: nat, library: Handle, loops: seq<Loop>)

  datatype Manager = Watching | Joining(closed: bool) | Stopped

  /** The channel's publications, whether its sender is gone, all generations so far (only the
      last was started last), and the manager. */
  datatype System = System(published: seq<Handle>, closed: bool, generations: seq<Generation>, manager: Manager)

  datatype Event =
    | Publish(library: Handle)
    | Close
    | Notice
    | Rebuild
    | Enter(g: nat, i: nat)
    | Fire(g: nat, i: nat)
    | Leave(g: nat, i: nat)
    | Acquire(g: nat, i: nat)
    | Finish(g: nat, i: nat)

  function NewGeneration(published: seq<Handle>): Generation
    requires published != []
  {
    var n := |published| - 1;
    Generation(n, published[n], seq(|published[n].config.shows|, i requires 0 <= i < |published[n].config.shows| => Entering))
  }

  function Start(first: Handle): System {
    System([first], false, [NewGeneration([first])], Watching)
  }

  ghost predicate Formed(s: System) {
    && s.published != [] && s.generations != []
    && forall g :: 0 <= g < |s.generations| ==>
         && s.generations[g].version < |s.published|
         && s.generations[g].library == s.published[s.generations[g].version]
         && |s.generations[g].loops| == |s.generations[g].library.config.shows|
  }

  function Current(s: System): Generation
    requires s.generations != []
  {
    s.generations[|s.generations| - 1]
  }

  /** A receiver that has seen `version` has something to be told. */
  predicate Changed(s: System, version: nat) {
    version + 1 < |s.published| || s.closed
  }

  predicate At(s: System, g: nat, i: nat, loop: Loop) {
    g < |s.generations| && i < |s.generations[g].loops| && s.generations[g].loops[i] == loop
  }

  predicate AllExited(g: Generation) {
    forall i :: 0 <= i < |g.loops| ==> g.loops[i].Exited?
  }

  predicate PermitFree(g: Generation) {
    forall i :: 0 <= i < |g.loops| ==> !g.loops[i].Syncing?
  }

  /** The interval of a loop; a zero interval makes its timer ready at once. */
  function Interval(s: System, g: nat, i: nat): nat
    requires Formed(s) && g < |s.generations| && i < |s.generations[g].loops|
  {
    s.generations[g].library.config.shows[i].interval
  }

  /** What may happen next. Nothing is published after the closing, and the manager notices a new
      value before the closing. A loop whose timer and channel are both ready takes either branch. */
  ghost predicate Enabled(s: System, e: Event)
    requires Formed(s)
  {
    match e
    case Publish(_) => !s.closed
    case Close => !s.closed
    case Notice => s.manager.Watching? && Changed(s, Current(s).version)
    case Rebuild => s.manager.Joining? && AllExited(Current(s))
    case Enter(g, i) => At(s, g, i, Entering)
    case Fire(g, i) => At(s, g, i, Sleeping) || (At(s, g, i, Entering) && Interval(s, g, i) == 0)
    case Leave(g, i) => At(s, g, i, Sleeping) && Changed(s, s.generations[g].version)
    case Acquire(g, i) => At(s, g, i, WantPermit) && PermitFree(s.generations[g])
    case Finish(g, i) => At(s, g, i, Syncing)
  }

  function SetLoop(s: System, g: nat, i: nat, loop: Loop): System
    requires g < |s.generations| && i < |s.generations[g].loops|
  {
    s.(generations := s.generations[g := s.generations[g].(loops := s.generations[g].loops[i := loop])])
  }

  ghost function Next(s: System, e: Event): (s': System)
    requires Formed(s)
    ensures Formed(s')
  {
    if !Enabled(s, e) then s
    else
      match e
      case Publish(library) => s.(published := s.published + [library])
      case Close => s.(closed := true)
      case Notice => s.(manager := Joining(Current(s).version + 1 == |s.published|))
      case Rebuild =>
        if s.manager.closed then s.(manager := Stopped)
        else s.(generations := s.generations + [NewGeneration(s.published)], manager := Watching)
      case Enter(g, i) =>
        SetLoop(s, g, i, if Changed(s, s.generations[g].version) then Exited else Sleeping)
      case Fire(g, i) => SetLoop(s, g, i, WantPermit)
      case Leave(g, i) => SetLoop(s, g, i, Exited)
      case Acquire(g, i) => SetLoop(s, g, i, Syncing)
      case Finish(g, i) => SetLoop(s, g, i, Entering)
  }

  ghost function Run(s: System, events: seq<Event>): (s': System)
    requires Formed(s)
    ensures Formed(s')
  {
    if events == [] then s else Next(Run(s, events[..|events| - 1]), events[|events| - 1])
  }

  // ----- safety -----

  ghost predicate OnePermit(g: Generation) {
    forall i, j :: 0 <= i < |g.loops| && 0 <= j < |g.loops| && g.loops[i].Syncing? && g.loops[j].Syncing? ==> i == j
  }

  ghost predicate Inv(s: System)
    requires Formed(s)
  {
    && (forall g :: 0 <= g < |s.generations| - 1 ==> AllExited(s.generations[g]))
    && OnePermit(Current(s))
    && (s.manager.Joining? && !s.manager.closed ==> Current(s).version + 1 < |s.published|)
    && ((s.manager.Stopped? || (s.manager.Joining? && s.manager.closed)) ==>
          s.closed && Current(s).version + 1 == |s.published|)
    && (s.manager.Stopped? ==> AllExited(Current(s)))
  }

  lemma LoopStepKeepsInv(s: System, g: nat, i: nat, loop: Loop)
    requires Formed(s) && Inv(s)
    requires g < |s.generations| && i < |s.generations[g].loops| && !s.generations[g].loops[i].Exited?
    requires loop.Syncing? ==> PermitFree(s.generations[g])
    ensures g == |s.generations| - 1 && Inv(SetLoop(s, g, i, loop))
  {
    assert g < |s.generations| - 1 ==> AllExited(s.generations[g]);
  }

  predicate ByLoop(e: Event) {
    e.Enter? || e.Fire? || e.Leave? || e.Acquire? || e.Finish?
  }

  lemma LoopEventKeepsInv(s: System, e: Event)
    requires Formed(s) && Inv(s) && Enabled(s, e) && ByLoop(e)
    ensures Inv(Next(s, e))
  {
    match e
    case Enter(g, i) => LoopStepKeepsInv(s, g, i, if Changed(s, s.generations[g].version) then Exited else Sleeping);
    case Fire(g, i) => LoopStepKeepsInv(s, g, i, WantPermit);
    case Leave(g, i) => LoopStepKeepsInv(s, g, i, Exited);
    case Acquire(g, i) => LoopStepKeepsInv(s, g, i, Syncing);
    case Finish(g, i) => LoopStepKeepsInv(s, g, i, Entering);
  }

  lemma RebuildKeepsInv(s: System)
    requires Formed(s) && Inv(s) && Enabled(s, Rebuild)
    ensures Inv(Next(s, Rebuild))
  {
  }

  lemma ManagerKeepsInv(s: System, e: Event)
    requires Formed(s) && Inv(s) && Enabled(s, e) && (e.Publish? || e.Close? || e.Notice?)
    ensures Inv(Next(s, e))
  {
  }

  lemma StepKeepsInv(s: System, e: Event)
    requires Formed(s) && Inv(s)
    ensures Inv(Next(s, e))
  {
    if Enabled(s, e) {
      if ByLoop(e) { LoopEventKeepsInv(s, e); }
      else if e.Rebuild? { RebuildKeepsInv(s); }
      else { ManagerKeepsInv(s, e); }
    }
  }

  lemma {:induction false} AlwaysInv(first: Handle, events: seq<Event>)
    ensures Inv(Run(Start(first), events))
  {
    if events != [] {
      AlwaysInv(first, events[..|events| - 1]);
      StepKeepsInv(Run(Start(first), events[..|events| - 1]), events[|events| - 1]);
    }
  }

  /** In every interleaving at most one scheduled sync is in flight, over all generations. */
  lemma AtMostOneSync(first: Handle, events: seq<Event>, g: nat, i: nat, h: nat, j: nat)
    requires At(Run(Start(first), events), g, i, Syncing) && At(Run(Start(first), events), h, j, Syncing)
    ensures g == h && i == j
  {
    AlwaysInv(first, events);
    var s := Run(Start(first), events);
    assert forall k :: 0 <= k < |s.generations| - 1 ==> AllExited(s.generations[k]);
  }

  /** Once a new generation has begun, nothing of an older one can move any more. */
  lemma {:induction false} OldGenerationsAreDead(first: Handle, events: seq<Event>, g: nat, i: nat)
    requires g + 1 < |Run(Start(first), events).generations|
    ensures var s := Run(Start(first), events);
            && !Enabled(s, Enter(g, i)) && !Enabled(s, Fire(g, i)) && !Enabled(s, Leave(g, i))
            && !Enabled(s, Acquire(g, i)) && !Enabled(s, Finish(g, i))
  {
    AlwaysInv(first, events);
    var s := Run(Start(first), events);
    assert AllExited(s.generations[g]);
  }

  lemma InvMeansLastRun(s: System)
    requires Formed(s) && Inv(s)
    ensures s.manager.Stopped? ==>
              s.closed && Current(s).library == s.published[|s.published| - 1] && AllExited(Current(s))
    ensures !Changed(s, Current(s).version) ==>
              s.manager.Watching? && Current(s).library == s.published[|s.published| - 1]
  {
    assert Current(s).version < |s.published| && Current(s).library == s.published[Current(s).version];
  }

  /** No swap is lost: the scheduler only stops on a closed channel, with the last published
      library as its last generation and no loop left; and while it watches with nothing to be
      told, that library is the one being polled. */
  lemma {:induction false} LastPublishedIsRun(first: Handle, events: seq<Event>)
    ensures var s := Run(Start(first), events);
            && (s.manager.Stopped? ==>
                  s.closed && Current(s).library == s.published[|s.published| - 1] && AllExited(Current(s)))
            && (!Changed(s, Current(s).version) ==>
                  s.manager.Watching? && Current(s).library == s.published[|s.published| - 1])
  {
    AlwaysInv(first, events);
    InvMeansLastRun(Run(Start(first), events));
  }

  /** A loop that is gone had something to be told. */
  ghost predicate Told(s: System) {
    forall g: nat, i: nat :: At(s, g, i, Exited) ==> Changed(s, s.generations[g].version)
  }

  lemma StepKeepsTold(s: System, e: Event)
    requires Formed(s) && Told(s)
    ensures Told(Next(s, e))
  {
    forall g: nat, i: nat | At(Next(s, e), g, i, Exited)
      ensures Changed(Next(s, e), Next(s, e).generations[g].version)
    {
      if At(s, g, i, Exited) { assert Changed(s, s.generations[g].version); }
    }
  }

  /** No loop stops unasked: when one has gone, a library was published after its own or the
      channel is closed. */
  lemma {:induction false} NoLoopStopsUnasked(first: Handle, events: seq<Event>, g: nat, i: nat)
    requires At(Run(Start(first), events), g, i, Exited)
    ensures var s := Run(Start(first), events); s.generations[g].version + 1 < |s.published| || s.closed
  {
    AlwaysTold(first, events);
  }

  lemma {:induction false} AlwaysTold(first: Handle, events: seq<Event>)
    ensures Told(Run(Start(first), events))
  {
    if events != [] {
      AlwaysTold(first, events[..|events| - 1]);
      StepKeepsTold(Run(Start(first), events[..|events| - 1]), events[|events| - 1]);
    }
  }

  // ----- draining -----

  /** How far a loop of a superseded generation still is from its end. */
  function Rank(loop: Loop): nat {
    match loop
    case Exited => 0
    case Entering => 1
    case Syncing => 2
    case WantPermit => 3
    case Sleeping => 4
  }

  function Ranks(loops: seq<Loop>): nat {
    if loops == [] then 0 else Ranks(loops[..|loops| - 1]) + Rank(loops[|loops| - 1])
  }

  /** The steps the current generation and the manager still have before the next rebuild. */
  function Work(s: System): nat
    requires s.generations != []
  {
    Ranks(Current(s).loops) + if s.manager.Watching? then 1 else 0
  }

  ghost predicate PositiveIntervals(s: System)
    requires Formed(s)
  {
    forall g, i :: 0 <= g < |s.generations| && 0 <= i < |s.generations[g].loops| ==> Interval(s, g, i) > 0
  }

  lemma {:induction false} RanksUpdate(loops: seq<Loop>, i: nat, loop: Loop)
    requires i < |loops|
    ensures Ranks(loops[i := loop]) == Ranks(loops) - Rank(loops[i]) + Rank(loop)
  {
    var n := |loops| - 1;
    if i < n {
      RanksUpdate(loops[..n], i, loop);
      assert loops[i := loop][..n] == loops[..n][i := loop];
    } else {
      assert loops[i := loop][..n] == loops[..n];
    }
  }

  lemma {:induction false} RanksZero(loops: seq<Loop>)
    ensures Ranks(loops) == 0 <==> forall i :: 0 <= i < |loops| ==> loops[i].Exited?
  {
    if loops != [] {
      var n := |loops| - 1;
      RanksZero(loops[..n]);
      if forall i :: 0 <= i < n ==> loops[..n][i].Exited? {
        assert forall i :: 0 <= i < n ==> loops[i] == loops[..n][i];
      } else {
        var i :| 0 <= i < n && !loops[..n][i].Exited?;
        assert loops[i] == loops[..n][i];
      }
    }
  }

  predicate FromOutside(e: Event) { e.Publish? || e.Close? }

  /** A loop of a superseded generation with positive intervals only moves towards its end. */
  lemma LoopDrains(s: System, e: Event, g: nat, i: nat)
    requires Formed(s) && PositiveIntervals(s) && Enabled(s, e)
    requires e == Enter(g, i) || e == Fire(g, i) || e == Leave(g, i) || e == Acquire(g, i) || e == Finish(g, i)
    requires Changed(s, s.generations[g].version)
    ensures g < |s.generations| && i < |s.generations[g].loops|
    ensures var before, after := s.generations[g].loops[i], Next(s, e).generations[g].loops[i];
            && Next(s, e) == SetLoop(s, g, i, after)
            && Rank(after) < Rank(before)
  {
  }

  /** With a change pending and positive intervals, every step of the scheduler is work done;
      publications and the closing add none. */
  lemma StepDrains(s: System, e: Event)
    requires Formed(s) && Inv(s) && PositiveIntervals(s) && Enabled(s, e)
    requires Changed(s, Current(s).version) && e != Rebuild
    ensures Current(Next(s, e)).version == Current(s).version && Changed(Next(s, e), Current(s).version)
    ensures if FromOutside(e) then Work(Next(s, e)) == Work(s) else Work(Next(s, e)) < Work(s)
  {
    if ByLoop(e) {
      LoopStepKeepsInv(s, e.g, e.i, Exited);
      LoopDrains(s, e, e.g, e.i);
      RanksUpdate(Current(s).loops, e.i, Next(s, e).generations[e.g].loops[e.i]);
    }
  }

  /** How many steps the scheduler itself takes during `events`. */
  ghost function StepsTaken(s: System, events: seq<Event>): nat
    requires Formed(s)
  {
    if events == [] then 0
    else
      var n := |events| - 1;
      StepsTaken(s, events[..n])
      + if Enabled(Run(s, events[..n]), events[n]) && !FromOutside(events[n]) then 1 else 0
  }

  lemma PositiveStays(s: System, e: Event)
    requires Formed(s) && PositiveIntervals(s) && e != Rebuild
    ensures PositiveIntervals(Next(s, e))
  {
    var s' := Next(s, e);
    forall g, i | 0 <= g < |s'.generations| && 0 <= i < |s'.generations[g].loops| ensures Interval(s', g, i) > 0 {
      assert Interval(s, g, i) > 0;
    }
  }

  /** Between the moment a change is pending and the next rebuild, the scheduler takes at most
      Work(s) steps, however many further publications come in between. */
  lemma {:induction false} DrainIsBounded(s: System, events: seq<Event>)
    requires Formed(s) && Inv(s) && PositiveIntervals(s) && Changed(s, Current(s).version)
    requires Rebuild !in events
    ensures var s' := Run(s, events);
            && Inv(s') && PositiveIntervals(s') && Changed(s', Current(s').version)
            && StepsTaken(s, events) + Work(s') <= Work(s)
  {
    if events != [] {
      var n := |events| - 1;
      var before, e := Run(s, events[..n]), events[n];
      assert e in events && forall x :: x in events[..n] ==> x in events;
      DrainIsBounded(s, events[..n]);
      StepKeepsInv(before, e);
      PositiveStays(before, e);
      if Enabled(before, e) { StepDrains(before, e); }
    }
  }

  /** As long as the work is not done some step of the scheduler can be taken, and when it is
      done the manager can rebuild or stop: draining never gets stuck. */
  lemma DrainNeverSticks(s: System) returns (e: Event)
    requires Formed(s) && Inv(s) && Changed(s, Current(s).version) && !s.manager.Stopped?
    ensures Enabled(s, e) && !FromOutside(e)
    ensures Work(s) == 0 ==> e == Rebuild
  {
    var g := |s.generations| - 1;
    RanksZero(Current(s).loops);
    if s.manager.Watching? {
      e := Notice;
    } else if i :| 0 <= i < |Current(s).loops| && Current(s).loops[i].Syncing? {
      e := Finish(g, i);
    } else if i :| 0 <= i < |Current(s).loops| && Current(s).loops[i].WantPermit? {
      e := Acquire(g, i);
    } else if i :| 0 <= i < |Current(s).loops| && Current(s).loops[i].Entering? {
      e := Enter(g, i);
    } else if i :| 0 <= i < |Current(s).loops| && Current(s).loops[i].Sleeping? {
      e := Leave(g, i);
    } else {
      e := Rebuild;
    }
  }

  // ----- at most one more sync -----

  /** How many syncs loop `i` of generation `g` starts during `events`. */
  ghost function Starts(s: System, events: seq<Event>, g: nat, i: nat): nat
    requires Formed(s)
  {
    if events == [] then 0
    else
      var n := |events| - 1;
      Starts(s, events[..n], g, i)
      + if events[n] == Acquire(g, i) && Enabled(Run(s, events[..n]), events[n]) then 1 else 0
  }

  /** The syncs a superseded loop has ahead of it. */
  function Ahead(s: System, g: nat, i: nat): nat
    requires g < |s.generations| && i < |s.generations[g].loops|
  {
    if Rank(s.generations[g].loops[i]) >= 3 then 1 else 0
  }

  /** Generation `g` is superseded, and its loop `i` has a positive interval. */
  ghost predicate Superseded(s: System, g: nat, i: nat)
    requires Formed(s)
  {
    && g < |s.generations| && i < |s.generations[g].loops|
    && Changed(s, s.generations[g].version) && Interval(s, g, i) > 0
  }

  lemma OtherStepsSpare(s: System, e: Event, g: nat, i: nat)
    requires Formed(s) && Superseded(s, g, i) && !(ByLoop(e) && e.g == g && e.i == i)
    ensures Superseded(Next(s, e), g, i) && Ahead(Next(s, e), g, i) == Ahead(s, g, i)
  {
  }

  lemma OwnStepCounts(s: System, e: Event, g: nat, i: nat)
    requires Formed(s) && Superseded(s, g, i) && ByLoop(e) && e.g == g && e.i == i
    ensures Superseded(Next(s, e), g, i)
    ensures (if e == Acquire(g, i) && Enabled(s, e) then 1 else 0) + Ahead(Next(s, e), g, i) <= Ahead(s, g, i)
  {
  }

  lemma SupersededStep(s: System, e: Event, g: nat, i: nat)
    requires Formed(s) && Superseded(s, g, i)
    ensures Superseded(Next(s, e), g, i)
    ensures (if e == Acquire(g, i) && Enabled(s, e) then 1 else 0) + Ahead(Next(s, e), g, i) <= Ahead(s, g, i)
  {
    if ByLoop(e) && e.g == g && e.i == i { OwnStepCounts(s, e, g, i); } else { OtherStepsSpare(s, e, g, i); }
  }

  /** After a swap or the closing, each loop of an older generation starts at most one more sync,
      and none if it was not already asleep or waiting for the permit. */
  lemma {:induction false} AtMostOneMoreSync(s: System, events: seq<Event>, g: nat, i: nat)
    requires Formed(s) && Superseded(s, g, i)
    ensures Superseded(Run(s, events), g, i)
    ensures Starts(s, events, g, i) + Ahead(Run(s, events), g, i) <= Ahead(s, g, i)
  {
    if events != [] {
      var n := |events| - 1;
      AtMostOneMoreSync(s, events[..n], g, i);
      SupersededStep(Run(s, events[..n]), events[n], g, i);
    }
  }

  // ----- a timer of zero -----

  lemma {:induction false} RunAppend(s: System, a: seq<Event>, b: seq<Event>, g: nat, i: nat)
    requires Formed(s)
    ensures Run(s, a + b) == Run(Run(s, a), b)
    ensures Starts(s, a + b, g, i) == Starts(s, a, g, i) + Starts(Run(s, a), b, g, i)
  {
    if b == [] {
      assert a + b == a;
    } else {
      var n := |b| - 1;
      assert (a + b)[..|a + b| - 1] == a + b[..n];
      RunAppend(s, a, b[..n], g, i);
    }
  }

  lemma RunOne(s: System, e: Event, g: nat, i: nat)
    requires Formed(s)
    ensures Run(s, [e]) == Next(s, e)
    ensures Starts(s, [e], g, i) == if e == Acquire(g, i) && Enabled(s, e) then 1 else 0
  {
    assert [e][..0] == [];
  }

  /** The loop is about to sync or can be, and nobody holds the permit. */
  ghost predicate Ready(s: System, g: nat, i: nat)
    requires Formed(s)
  {
    && g < |s.generations| && i < |s.generations[g].loops| && Interval(s, g, i) == 0
    && PermitFree(s.generations[g])
    && (At(s, g, i, Entering) || At(s, g, i, Sleeping) || At(s, g, i, WantPermit))
  }

  lemma FireStep(s: System, g: nat, i: nat)
    requires Formed(s) && Ready(s, g, i) && !At(s, g, i, WantPermit)
    ensures Ready(Next(s, Fire(g, i)), g, i) && At(Next(s, Fire(g, i)), g, i, WantPermit)
  {
  }

  lemma AcquireStep(s: System, g: nat, i: nat)
    requires Formed(s) && Ready(s, g, i) && At(s, g, i, WantPermit)
    ensures Enabled(s, Acquire(g, i))
    ensures var s' := Next(s, Acquire(g, i));
            && At(s', g, i, Syncing) && Interval(s', g, i) == 0
            && forall j :: 0 <= j < |s'.generations[g].loops| && j != i ==> !s'.generations[g].loops[j].Syncing?
  {
  }

  lemma FinishStep(s: System, g: nat, i: nat)
    requires Formed(s) && At(s, g, i, Syncing) && Interval(s, g, i) == 0
    requires forall j :: 0 <= j < |s.generations[g].loops| && j != i ==> !s.generations[g].loops[j].Syncing?
    ensures Ready(Next(s, Finish(g, i)), g, i)
  {
  }

  lemma SyncLap(s: System, g: nat, i: nat) returns (events: seq<Event>)
    requires Formed(s) && Ready(s, g, i) && At(s, g, i, WantPermit)
    ensures Ready(Run(s, events), g, i) && Starts(s, events, g, i) >= 1
  {
    AcquireStep(s, g, i);
    RunOne(s, Acquire(g, i), g, i);
    var syncing := Next(s, Acquire(g, i));
    FinishStep(syncing, g, i);
    RunOne(syncing, Finish(g, i), g, i);
    RunAppend(s, [Acquire(g, i)], [Finish(g, i)], g, i);
    events := [Acquire(g, i)] + [Finish(g, i)];
  }

  /** Firing at once, a loop gets round to another sync without looking at the channel. */
  lemma Lap(s: System, g: nat, i: nat) returns (events: seq<Event>)
    requires Formed(s) && Ready(s, g, i)
    ensures Ready(Run(s, events), g, i) && Starts(s, events, g, i) >= 1
  {
    if At(s, g, i, WantPermit) {
      events := SyncLap(s, g, i);
    } else {
      FireStep(s, g, i);
      RunOne(s, Fire(g, i), g, i);
      var rest := SyncLap(Next(s, Fire(g, i)), g, i);
      RunAppend(s, [Fire(g, i)], rest, g, i);
      events := [Fire(g, i)] + rest;
    }
  }

  lemma {:induction false} Laps(s: System, g: nat, i: nat, k: nat) returns (events: seq<Event>)
    requires Formed(s) && Ready(s, g, i)
    ensures Starts(s, events, g, i) >= k
    decreases k
  {
    if k == 0 {
      events := [];
    } else {
      var lap := Lap(s, g, i);
      var more := Laps(Run(s, lap), g, i, k - 1);
      RunAppend(s, lap, more, g, i);
      events := lap + more;
    }
  }

  /** A loop with a zero interval that is not gone can always be brought there. */
  lemma GetReady(s: System, g: nat, i: nat) returns (events: seq<Event>)
    requires Formed(s) && Inv(s) && g < |s.generations| && i < |s.generations[g].loops|
    requires Interval(s, g, i) == 0 && !s.generations[g].loops[i].Exited?
    ensures Ready(Run(s, events), g, i)
  {
    assert g < |s.generations| - 1 ==> AllExited(s.generations[g]);
    if j :| 0 <= j < |s.generations[g].loops| && s.generations[g].loops[j].Syncing? {
      events := [Finish(g, j)];
      RunOne(s, Finish(g, j), g, i);
    } else {
      events := [];
    }
  }

  lemma ExitedStays(s: System, e: Event, g: nat, i: nat)
    requires Formed(s) && At(s, g, i, Exited)
    ensures At(Next(s, e), g, i, Exited) && !(e == Acquire(g, i) && Enabled(s, e))
  {
  }

  lemma {:induction false} GoneForGood(s: System, events: seq<Event>, g: nat, i: nat)
    requires Formed(s) && At(s, g, i, Exited)
    ensures At(Run(s, events), g, i, Exited) && Starts(s, events, g, i) == 0
  {
    if events != [] {
      var n := |events| - 1;
      GoneForGood(s, events[..n], g, i);
      ExitedStays(Run(s, events[..n]), events[n], g, i);
    }
  }

  /** In any reachable state with a change pending, a loop starts at most one more sync in every
      continuation exactly when its interval is positive or it is gone; with a zero interval its
      timer may win over the channel again and again. */
  lemma AtMostOneMoreExactly(s: System, g: nat, i: nat)
    requires Formed(s) && Inv(s) && g < |s.generations| && i < |s.generations[g].loops|
    requires Changed(s, s.generations[g].version)
    ensures (forall events :: Starts(s, events, g, i) <= 1) <==> Interval(s, g, i) > 0 || At(s, g, i, Exited)
  {
    if Interval(s, g, i) > 0 {
      forall events ensures Starts(s, events, g, i) <= 1 { AtMostOneMoreSync(s, events, g, i); }
    } else if At(s, g, i, Exited) {
      forall events ensures Starts(s, events, g, i) <= 1 { GoneForGood(s, events, g, i); }
    } else {
      var _ := UnboundedStarts(s, g, i, 2);
    }
  }

  /** Any number of them. */
  lemma UnboundedStarts(s: System, g: nat, i: nat, k: nat) returns (events: seq<Event>)
    requires Formed(s) && Inv(s) && g < |s.generations| && i < |s.generations[g].loops|
    requires Interval(s, g, i) == 0 && !s.generations[g].loops[i].Exited?
    ensures Starts(s, events, g, i) >= k
  {
    var a := GetReady(s, g, i);
    var b := Laps(Run(s, a), g, i, k);
    RunAppend(s, a, b, g, i);
    events := a + b;
  }
}
