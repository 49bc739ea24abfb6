/** All polls of the daemon: the scheduled ones, the sync at startup and the one after a reload. */
module Polls {
  import opened Reload
  import Scheduler
  import NextPolls

  /** One pass over all shows, outside the scheduler's permit: how many are left, and whether one
      is being synced right now. */
  datatype Pass = Pass(left: nat, polling: bool)

  datatype Starter = Startup | Reload

  datatype Daemon = Daemon(scheduler: Scheduler.System, startup: Pass, reload: Pass)

  datatype Event = Scheduled(e: Scheduler.Event) | Begin(who: Starter) | End(who: Starter)

  function PassOf(d: Daemon, who: Starter): Pass {
    if who == Startup then d.startup else d.reload
  }

  function WithPass(d: Daemon, who: Starter, p: Pass): Daemon {
    if who == Startup then d.(startup := p) else d.(reload := p)
  }

  /** The daemon starts a pass over its first library; each reload starts one over the library it
      publishes, and the next reload waits for it. */
  function Boot(first: Handle): Daemon {
    Daemon(Scheduler.Start(first), Pass(|first.config.shows|, false), Pass(0, false))
  }

  ghost predicate Enabled(d: Daemon, e: Event)
    requires Scheduler.Formed(d.scheduler)
  {
    match e
    case Scheduled(s) => Scheduler.Enabled(d.scheduler, s) && (s.Publish? ==> d.reload == Pass(0, false))
    case Begin(who) => PassOf(d, who).left > 0 && !PassOf(d, who).polling
    case End(who) => PassOf(d, who).left > 0 && PassOf(d, who).polling
  }

  ghost function Next(d: Daemon, e: Event): (d': Daemon)
    requires Scheduler.Formed(d.scheduler)
    ensures Scheduler.Formed(d'.scheduler)
  {
    if !Enabled(d, e) then d
    else
      match e
      case Scheduled(s) =>
        Daemon(Scheduler.Next(d.scheduler, s), d.startup, if s.Publish? then Pass(|s.library.config.shows|, false) else d.reload)
      case Begin(who) => WithPass(d, who, PassOf(d, who).(polling := true))
      case End(who) => WithPass(d, who, Pass(PassOf(d, who).left - 1, false))
  }

  ghost function Run(d: Daemon, events: seq<Event>): (d': Daemon)
    requires Scheduler.Formed(d.scheduler)
    ensures Scheduler.Formed(d'.scheduler)
  {
    if events == [] then d else Next(Run(d, events[..|events| - 1]), events[|events| - 1])
  }

  /** The loops that sync right now, over all generations. */
  ghost function SyncingLoops(s: Scheduler.System): set<(nat, nat)> {
    set g: nat, i: nat | g < |s.generations| && i < |s.generations[g].loops| && s.generations[g].loops[i] == Scheduler.Syncing
      :: (g, i)
  }

  /** The polls in flight. */
  ghost function InFlight(d: Daemon): nat {
    |SyncingLoops(d.scheduler)| + (if d.startup.polling then 1 else 0) + if d.reload.polling then 1 else 0
  }

  /** The scheduler's part of a run is a run of the scheduler. */
  lemma {:induction false} SchedulerRuns(first: Handle, events: seq<Event>) returns (own: seq<Scheduler.Event>)
    ensures Run(Boot(first), events).scheduler == Scheduler.Run(Scheduler.Start(first), own)
  {
    if events == [] {
      own := [];
    } else {
      var n := |events| - 1;
      own := SchedulerRuns(first, events[..n]);
      if Enabled(Run(Boot(first), events[..n]), events[n]) && events[n].Scheduled? {
        assert (own + [events[n].e])[..|own|] == own;
        own := own + [events[n].e];
      }
    }
  }

  /** What every reachable state satisfies: a pass that polls has shows left. */
  ghost predicate Sound(d: Daemon) {
    && Scheduler.Formed(d.scheduler) && Scheduler.Inv(d.scheduler)
    && (d.startup.polling ==> d.startup.left > 0) && (d.reload.polling ==> d.reload.left > 0)
  }

  lemma StepKeepsSound(d: Daemon, e: Event)
    requires Sound(d)
    ensures Sound(Next(d, e))
  {
    if e.Scheduled? { Scheduler.StepKeepsInv(d.scheduler, e.e); }
  }

  lemma {:induction false} AlwaysSound(first: Handle, events: seq<Event>)
    ensures Sound(Run(Boot(first), events))
  {
    if events != [] {
      AlwaysSound(first, events[..|events| - 1]);
      StepKeepsSound(Run(Boot(first), events[..|events| - 1]), events[|events| - 1]);
    }
  }

  lemma {:induction false} SoundStays(d: Daemon, events: seq<Event>)
    requires Sound(d)
    ensures Sound(Run(d, events))
  {
    if events != [] {
      SoundStays(d, events[..|events| - 1]);
      StepKeepsSound(Run(d, events[..|events| - 1]), events[|events| - 1]);
    }
  }

  lemma OneLoop(s: Scheduler.System)
    requires forall g: nat, i: nat, h: nat, j: nat ::
               Scheduler.At(s, g, i, Scheduler.Syncing) && Scheduler.At(s, h, j, Scheduler.Syncing) ==> g == h && i == j
    ensures |SyncingLoops(s)| == if NextPolls.SomeSync(s) then 1 else 0
  {
    if NextPolls.SomeSync(s) {
      var g: nat, i: nat :| Scheduler.At(s, g, i, Scheduler.Syncing);
      forall x | x in SyncingLoops(s) ensures x == (g, i) { assert Scheduler.At(s, x.0, x.1, Scheduler.Syncing); }
      assert SyncingLoops(s) == {(g, i)};
    } else {
      forall x ensures x !in SyncingLoops(s) { assert x in SyncingLoops(s) ==> Scheduler.At(s, x.0, x.1, Scheduler.Syncing); }
      assert SyncingLoops(s) == {};
    }
  }

  /** The scheduled polls of a reachable state number none or one. */
  lemma SyncingCount(s: Scheduler.System)
    requires Scheduler.Formed(s) && Scheduler.Inv(s)
    ensures |SyncingLoops(s)| == if NextPolls.SomeSync(s) then 1 else 0
  {
    assert forall g :: 0 <= g < |s.generations| - 1 ==> Scheduler.AllExited(s.generations[g]);
    OneLoop(s);
  }

  /** In every interleaving at most one scheduled poll is in flight, and at most three in all. */
  lemma OneOfEachKind(first: Handle, events: seq<Event>)
    ensures |SyncingLoops(Run(Boot(first), events).scheduler)| <= 1
    ensures InFlight(Run(Boot(first), events)) <= 3
  {
    var own := SchedulerRuns(first, events);
    var s := Run(Boot(first), events).scheduler;
    forall g: nat, i: nat, h: nat, j: nat | Scheduler.At(s, g, i, Scheduler.Syncing) && Scheduler.At(s, h, j, Scheduler.Syncing)
      ensures g == h && i == j
    {
      Scheduler.AtMostOneSync(first, own, g, i, h, j);
    }
    OneLoop(s);
  }

  lemma RunStep(d: Daemon, events: seq<Event>, e: Event)
    requires Scheduler.Formed(d.scheduler)
    ensures Run(d, events + [e]) == Next(Run(d, events), e)
  {
    assert (events + [e])[..|events|] == events;
  }

  // ----- no pass is cut short -----

  /** The polls a pass has completed in a run. */
  ghost function Completed(d: Daemon, events: seq<Event>, who: Starter): nat
    requires Scheduler.Formed(d.scheduler)
  {
    if events == [] then 0
    else
      var n := |events| - 1;
      Completed(d, events[..n], who) + if events[n] == End(who) && Enabled(Run(d, events[..n]), events[n]) then 1 else 0
  }

  /** The shows of all the libraries published after the first. */
  function ShowsReloaded(published: seq<Handle>): nat {
    if |published| <= 1 then 0
    else ShowsReloaded(published[..|published| - 1]) + |published[|published| - 1].config.shows|
  }

  /** Every reload syncs all the shows it published before the next one begins: over any run, the polls
      completed and those still to come add up to the shows of every library; likewise at startup. */
  lemma {:induction false} NoPassIsCutShort(first: Handle, events: seq<Event>)
    ensures var d := Run(Boot(first), events);
            && Completed(Boot(first), events, Reload) + d.reload.left == ShowsReloaded(d.scheduler.published)
            && Completed(Boot(first), events, Startup) + d.startup.left == |first.config.shows|
  {
    if events != [] {
      var n := |events| - 1;
      NoPassIsCutShort(first, events[..n]);
      CompletedStep(Run(Boot(first), events[..n]), events[n]);
    }
  }

  lemma CompletedStep(d: Daemon, e: Event)
    requires Scheduler.Formed(d.scheduler)
    ensures var d' := Next(d, e);
            && (if e == End(Reload) && Enabled(d, e) then 1 else 0) + d'.reload.left - d.reload.left
               == ShowsReloaded(d'.scheduler.published) - ShowsReloaded(d.scheduler.published)
            && (if e == End(Startup) && Enabled(d, e) then 1 else 0) + d'.startup.left == d.startup.left
  {
    if Enabled(d, e) && e.Scheduled? && e.e.Publish? {
      var p := d.scheduler.published;
      assert (p + [e.e.library])[..|p|] == p;
    } else {
      assert Next(d, e).scheduler.published == d.scheduler.published;
    }
  }

  // ----- the promise of one poll at a time -----

  /** The run begins only the passes it is allowed to. */
  ghost predicate Within(events: seq<Event>, startup: bool, reload: bool) {
    forall i :: 0 <= i < |events| && events[i].Begin? ==> if events[i].who == Startup then startup else reload
  }

  /** Nothing published beyond the first library, or the first again; loop 0 of the first
      generation is at `loop`. */
  ghost predicate Opening(d: Daemon, first: Handle, loop: Scheduler.Loop) {
    && Scheduler.Formed(d.scheduler) && !d.scheduler.closed
    && |d.scheduler.generations| == 1 && first.config.shows != []
    && Scheduler.At(d.scheduler, 0, 0, loop)
    && forall i :: 0 < i < |d.scheduler.generations[0].loops| ==> d.scheduler.generations[0].loops[i] == Scheduler.Entering
  }

  lemma Booted(first: Handle)
    requires first.config.shows != []
    ensures Opening(Boot(first), first, Scheduler.Entering)
    ensures !Scheduler.Changed(Boot(first).scheduler, Boot(first).scheduler.generations[0].version)
  {
  }

  lemma Asleep(d: Daemon, first: Handle)
    requires Opening(d, first, Scheduler.Entering)
    requires !Scheduler.Changed(d.scheduler, d.scheduler.generations[0].version)
    ensures var d' := Next(d, Scheduled(Scheduler.Enter(0, 0)));
            Opening(d', first, Scheduler.Sleeping) && d'.startup == d.startup && d'.reload == d.reload
  {
  }

  lemma Published(d: Daemon, first: Handle)
    requires Opening(d, first, Scheduler.Sleeping) && d.reload == Pass(0, false)
    ensures var d' := Next(d, Scheduled(Scheduler.Publish(first)));
            Opening(d', first, Scheduler.Sleeping) && d'.startup == d.startup && d'.reload == Pass(|first.config.shows|, false)
  {
  }

  lemma Fired(d: Daemon, first: Handle)
    requires Opening(d, first, Scheduler.Sleeping)
    ensures var d' := Next(d, Scheduled(Scheduler.Fire(0, 0)));
            Opening(d', first, Scheduler.WantPermit) && d'.startup == d.startup && d'.reload == d.reload
  {
  }

  lemma Acquired(d: Daemon, first: Handle)
    requires Opening(d, first, Scheduler.WantPermit)
    ensures var d' := Next(d, Scheduled(Scheduler.Acquire(0, 0)));
            NextPolls.SomeSync(d'.scheduler) && d'.startup == d.startup && d'.reload == d.reload
  {
    assert Scheduler.At(Next(d, Scheduled(Scheduler.Acquire(0, 0))).scheduler, 0, 0, Scheduler.Syncing);
  }

  lemma Follow(first: Handle, events: seq<Event>, d: Daemon, e: Event, startup: bool, reload: bool)
    returns (longer: seq<Event>)
    requires Scheduler.Formed(d.scheduler) && Run(Boot(first), events) == d && Within(events, startup, reload)
    requires e.Begin? ==> if e.who == Startup then startup else reload
    ensures Within(longer, startup, reload) && Run(Boot(first), longer) == Next(d, e)
  {
    longer := events + [e];
    RunStep(Boot(first), events, e);
  }

  /** Up to a sleeping loop, with the allowed passes polling. */
  lemma Prelude(first: Handle, startup: bool, reload: bool) returns (events: seq<Event>, d: Daemon)
    requires first.config.shows != []
    ensures Scheduler.Formed(d.scheduler) && Run(Boot(first), events) == d && Within(events, startup, reload)
    ensures Opening(d, first, Scheduler.Sleeping)
    ensures d.startup.polling == startup && d.reload.polling == reload
  {
    Booted(first);
    Asleep(Boot(first), first);
    events := Follow(first, [], Boot(first), Scheduled(Scheduler.Enter(0, 0)), startup, reload);
    d := Next(Boot(first), Scheduled(Scheduler.Enter(0, 0)));
    if reload {
      Published(d, first);
      events := Follow(first, events, d, Scheduled(Scheduler.Publish(first)), startup, reload);
      d := Next(d, Scheduled(Scheduler.Publish(first)));
      events := Follow(first, events, d, Begin(Reload), startup, reload);
      d := Next(d, Begin(Reload));
    }
    if startup {
      events := Follow(first, events, d, Begin(Startup), startup, reload);
      d := Next(d, Begin(Startup));
    }
  }

  /** A run that lets the startup pass, the pass of a reload, or both poll while a scheduled poll is
      in flight. */
  lemma Overlap(first: Handle, startup: bool, reload: bool) returns (events: seq<Event>)
    requires first.config.shows != []
    ensures Within(events, startup, reload)
    ensures InFlight(Run(Boot(first), events)) == 1 + (if startup then 1 else 0) + if reload then 1 else 0
  {
    var d;
    events, d := Prelude(first, startup, reload);
    Fired(d, first);
    events := Follow(first, events, d, Scheduled(Scheduler.Fire(0, 0)), startup, reload);
    d := Next(d, Scheduled(Scheduler.Fire(0, 0)));
    Acquired(d, first);
    events := Follow(first, events, d, Scheduled(Scheduler.Acquire(0, 0)), startup, reload);
    AlwaysSound(first, events);
    SyncingCount(Run(Boot(first), events).scheduler);
  }

  lemma {:induction false} NoPassNoPoll(first: Handle, events: seq<Event>)
    requires Within(events, false, false)
    ensures !Run(Boot(first), events).startup.polling && !Run(Boot(first), events).reload.polling
  {
    if events != [] {
      var n := |events| - 1;
      assert Within(events[..n], false, false);
      NoPassNoPoll(first, events[..n]);
      assert !events[n].Begin?;
    }
  }

  /** The promise that at most one poll runs at any moment holds for all runs of a daemon with a
      show exactly when neither the startup sync nor the syncs after a reload are begun; either
      kind alone breaks it, and both together reach three. */
  lemma OnePollExactly(first: Handle, startup: bool, reload: bool)
    requires first.config.shows != []
    ensures (forall events :: Within(events, startup, reload) ==> InFlight(Run(Boot(first), events)) <= 1)
            <==> !startup && !reload
  {
    if startup || reload {
      var events := Overlap(first, startup, reload);
    } else {
      forall events | Within(events, false, false) ensures InFlight(Run(Boot(first), events)) <= 1 {
        NoPassNoPoll(first, events);
        OneOfEachKind(first, events);
      }
    }
  }

  // ----- from any state on -----

  /** How many of the startup pass, the pass of the last reload and the scheduler can still poll
      without another reload. */
  ghost function Sources(d: Daemon): nat
    requires Scheduler.Formed(d.scheduler)
  {
    (if d.startup.left > 0 then 1 else 0) + (if d.reload.left > 0 then 1 else 0)
    + if NextPolls.PollAhead(d.scheduler) then 1 else 0
  }

  predicate IsReload(e: Event) { e.Scheduled? && e.e.Publish? }

  predicate NoReload(events: seq<Event>) {
    forall k :: 0 <= k < |events| ==> !IsReload(events[k])
  }

  /** Nothing that is used up comes back without a reload. */
  lemma SourcesFall(d: Daemon, e: Event)
    requires Sound(d) && !IsReload(e)
    ensures var d' := Next(d, e);
            && d'.startup.left <= d.startup.left && d'.reload.left <= d.reload.left
            && (NextPolls.PollAhead(d'.scheduler) ==> NextPolls.PollAhead(d.scheduler))
            && Sources(d') <= Sources(d)
  {
    if e.Scheduled? && !NextPolls.PollAhead(d.scheduler) { NextPolls.QuietStays(d.scheduler, e.e); }
  }

  lemma FlightsHaveSources(d: Daemon)
    requires Sound(d)
    ensures InFlight(d) <= Sources(d)
  {
    SyncingCount(d.scheduler);
    if g: nat, i: nat :| Scheduler.At(d.scheduler, g, i, Scheduler.Syncing) { NextPolls.SyncingIsAhead(d.scheduler, g, i); }
  }

  lemma {:induction false} SourcesBound(d: Daemon, events: seq<Event>)
    requires Sound(d) && NoReload(events)
    ensures InFlight(Run(d, events)) <= Sources(Run(d, events)) <= Sources(d)
  {
    SoundStays(d, events);
    FlightsHaveSources(Run(d, events));
    if events != [] {
      var n := |events| - 1;
      SourcesBound(d, events[..n]);
      SoundStays(d, events[..n]);
      SourcesFall(Run(d, events[..n]), events[n]);
    }
  }

  /** A run of the scheduler alone. */
  lemma {:induction false} SchedulerAlone(d: Daemon, own: seq<Scheduler.Event>) returns (events: seq<Event>)
    requires Scheduler.Formed(d.scheduler) && forall k :: 0 <= k < |own| ==> !own[k].Publish?
    ensures NoReload(events)
    ensures Run(d, events) == Daemon(Scheduler.Run(d.scheduler, own), d.startup, d.reload)
  {
    if own == [] {
      events := [];
    } else {
      var n := |own| - 1;
      var before := SchedulerAlone(d, own[..n]);
      RunStep(d, before, Scheduled(own[n]));
      events := before + [Scheduled(own[n])];
    }
  }

  /** A pass with a show left is made to poll, and nothing else moves. */
  lemma LetPoll(d: Daemon, d0: Daemon, events: seq<Event>, who: Starter) returns (longer: seq<Event>)
    requires Scheduler.Formed(d0.scheduler) && Sound(d) && Run(d0, events) == d && NoReload(events)
    ensures NoReload(longer)
    ensures Run(d0, longer) == WithPass(d, who, PassOf(d, who).(polling := PassOf(d, who).left > 0))
  {
    if PassOf(d, who).left > 0 && !PassOf(d, who).polling {
      RunStep(d0, events, Begin(who));
      longer := events + [Begin(who)];
    } else {
      longer := events;
    }
  }

  /** All that can still poll can be brought to poll at once. */
  lemma SourcesReached(d: Daemon) returns (events: seq<Event>)
    requires Sound(d)
    ensures NoReload(events) && InFlight(Run(d, events)) == Sources(d)
  {
    var own := [];
    if NextPolls.PollAhead(d.scheduler) { own := NextPolls.ReachSync(d.scheduler); }
    events := SchedulerAlone(d, own);
    var s := Scheduler.Run(d.scheduler, own);
    assert own == [] ==> s == d.scheduler;
    SoundStays(d, events);
    SyncingCount(s);
    if !NextPolls.PollAhead(d.scheduler) { FlightsHaveSources(Daemon(s, Pass(0, false), Pass(0, false))); }
    var d1 := Run(d, events);
    events := LetPoll(d1, d, events, Startup);
    SoundStays(d, events);
    events := LetPoll(Run(d, events), d, events, Reload);
  }

  /** From any reachable state the most polls that are ever in flight together, over all
      continuations without another reload, are exactly the sources that can still poll; so one
      poll at a time is guaranteed exactly when at most one source is left. */
  lemma MostPollsExactly(d: Daemon, k: nat)
    requires Sound(d)
    ensures (forall events :: NoReload(events) ==> InFlight(Run(d, events)) <= k) <==> Sources(d) <= k
  {
    var most := SourcesReached(d);
    if Sources(d) <= k {
      forall events | NoReload(events) ensures InFlight(Run(d, events)) <= k { SourcesBound(d, events); }
    }
  }

  /** The same with reloads still to come: unless the channel is closed, another reload brings its
      own pass and a rebuilt scheduler. */
  ghost function Prospects(d: Daemon): nat
    requires Scheduler.Formed(d.scheduler)
  {
    if d.scheduler.closed then Sources(d) else (if d.startup.left > 0 then 1 else 0) + 2
  }

  lemma ProspectsFall(d: Daemon, e: Event)
    requires Sound(d)
    ensures Prospects(Next(d, e)) <= Prospects(d)
  {
    if !IsReload(e) { SourcesFall(d, e); }
  }

  lemma {:induction false} ProspectsBound(d: Daemon, events: seq<Event>)
    requires Sound(d)
    ensures InFlight(Run(d, events)) <= Prospects(Run(d, events)) <= Prospects(d)
  {
    SoundStays(d, events);
    FlightsHaveSources(Run(d, events));
    if events != [] {
      var n := |events| - 1;
      ProspectsBound(d, events[..n]);
      SoundStays(d, events[..n]);
      ProspectsFall(Run(d, events[..n]), events[n]);
    }
  }

  lemma {:induction false} RunAppend(d: Daemon, a: seq<Event>, b: seq<Event>)
    requires Scheduler.Formed(d.scheduler)
    ensures Run(d, a + b) == Run(Run(d, a), b)
  {
    if b == [] {
      assert a + b == a;
    } else {
      var n := |b| - 1;
      assert (a + b)[..|a + b| - 1] == a + b[..n];
      RunAppend(d, a, b[..n]);
    }
  }

  /** The pass of the last reload can be brought to its end. */
  lemma FinishReload(d: Daemon) returns (events: seq<Event>)
    requires Sound(d)
    ensures Run(d, events) == Daemon(d.scheduler, d.startup, Pass(0, false))
    decreases d.reload.left, !d.reload.polling
  {
    if d.reload.left == 0 {
      events := [];
    } else {
      var e := if d.reload.polling then End(Reload) else Begin(Reload);
      StepKeepsSound(d, e);
      var rest := FinishReload(Next(d, e));
      RunStep(d, [], e);
      assert [] + [e] == [e] && Run(d, []) == d;
      RunAppend(d, [e], rest);
      events := [e] + rest;
    }
  }

  lemma ReloadGivesTwo(d: Daemon, library: Handle)
    requires Sound(d) && d.reload == Pass(0, false) && !d.scheduler.closed && library.config.shows != []
    ensures Sources(Next(d, Scheduled(Scheduler.Publish(library)))) == Prospects(d)
  {
    var d' := Next(d, Scheduled(Scheduler.Publish(library)));
    assert NextPolls.WillStir(d'.scheduler, 0);
  }

  lemma ProspectsReached(d: Daemon, library: Handle) returns (events: seq<Event>)
    requires Sound(d) && library.config.shows != []
    ensures InFlight(Run(d, events)) == Prospects(d)
  {
    if d.scheduler.closed {
      events := SourcesReached(d);
    } else {
      var a := FinishReload(d);
      var d1, e := Run(d, a), Scheduled(Scheduler.Publish(library));
      ReloadGivesTwo(d1, library);
      StepKeepsSound(d1, e);
      RunStep(d, a, e);
      var b := SourcesReached(Next(d1, e));
      RunAppend(d, a + [e], b);
      events := a + [e] + b;
    }
  }

  /** From any reachable state, over all continuations, reloads included. So one poll at a time is
      guaranteed for good exactly when the channel is closed and at most one source is left. */
  lemma MostPollsEverExactly(d: Daemon, library: Handle, k: nat)
    requires Sound(d) && library.config.shows != []
    ensures (forall events :: InFlight(Run(d, events)) <= k) <==> Prospects(d) <= k
  {
    var most := ProspectsReached(d, library);
    if Prospects(d) <= k {
      forall events ensures InFlight(Run(d, events)) <= k { ProspectsBound(d, events); }
    }
  }
}
