/** Whether the scheduler can still begin a poll without another reload. */
module NextPolls {
  import opened Reload
  import opened Scheduler

  /** What a loop can still do by itself: asleep or waiting it gets to a sync, and on the way round
      it does unless it sees the channel first. */
  predicate Stirs(loop: Loop, interval: nat, changed: bool) {
    match loop
    case Sleeping | WantPermit | Syncing => true
    case Entering => interval == 0 || !changed
    case Exited => false
  }

  /** Loop `i` of the current generation syncs or can get there. */
  ghost predicate LoopAhead(s: System, i: nat)
    requires Formed(s)
  {
    && i < |Current(s).loops|
    && Stirs(Current(s).loops[i], Interval(s, |s.generations| - 1, i), Changed(s, Current(s).version))
  }

  function Last(s: System): Handle
    requires s.published != []
  {
    s.published[|s.published| - 1]
  }

  /** Show `i` of the last library gets to a sync once its loop is started. */
  predicate WillStir(s: System, i: nat)
    requires s.published != []
  {
    i < |Last(s).config.shows| && Stirs(Entering, Last(s).config.shows[i].interval, s.closed)
  }

  /** A library is still to be started, and one of its loops will then get to a sync. */
  ghost predicate RebuildAhead(s: System)
    requires Formed(s)
  {
    Current(s).version + 1 < |s.published| && exists i: nat :: WillStir(s, i)
  }

  /** Only the channel and the version of the current generation matter for it. */
  lemma SameOutlook(s: System, s': System)
    requires Formed(s) && Formed(s')
    requires s'.published == s.published && s'.closed == s.closed && Current(s').version == Current(s).version
    ensures RebuildAhead(s') <==> RebuildAhead(s)
  {
    forall i: nat ensures WillStir(s', i) <==> WillStir(s, i) {}
  }

  ghost predicate PollAhead(s: System)
    requires Formed(s)
  {
    (exists i: nat :: LoopAhead(s, i)) || RebuildAhead(s)
  }

  lemma SyncingIsAhead(s: System, g: nat, i: nat)
    requires Formed(s) && Inv(s) && At(s, g, i, Syncing)
    ensures PollAhead(s)
  {
    assert g < |s.generations| - 1 ==> AllExited(s.generations[g]);
    assert LoopAhead(s, i);
  }

  // ----- a scheduler with no poll ahead stays so -----

  lemma QuietLoopStep(s: System, e: Event)
    requires Formed(s) && Inv(s) && !PollAhead(s) && Enabled(s, e) && ByLoop(e)
    ensures !PollAhead(Next(s, e))
  {
    var s' := Next(s, e);
    assert e.g < |s.generations| - 1 ==> AllExited(s.generations[e.g]);
    assert !LoopAhead(s, e.i);
    SameOutlook(s, s');
    forall i: nat ensures !LoopAhead(s', i) { assert !LoopAhead(s, i); }
  }

  lemma QuietRebuild(s: System)
    requires Formed(s) && Inv(s) && !PollAhead(s) && Enabled(s, Rebuild)
    ensures !PollAhead(Next(s, Rebuild))
  {
    var s' := Next(s, Rebuild);
    assert !s.manager.closed ==> Current(s).version + 1 < |s.published|;
    forall i: nat ensures !LoopAhead(s', i) {
      assert !LoopAhead(s, i);
      assert !s.manager.closed ==> !WillStir(s, i);
    }
  }

  lemma QuietOtherStep(s: System, e: Event)
    requires Formed(s) && Inv(s) && !PollAhead(s) && Enabled(s, e) && (e.Close? || e.Notice?)
    ensures !PollAhead(Next(s, e))
  {
    var s' := Next(s, e);
    forall i: nat ensures !LoopAhead(s', i) { assert !LoopAhead(s, i); }
    forall i: nat ensures RebuildAhead(s') ==> !WillStir(s', i) { assert RebuildAhead(s') ==> !WillStir(s, i); }
  }

  lemma QuietStays(s: System, e: Event)
    requires Formed(s) && Inv(s) && !PollAhead(s) && !e.Publish?
    ensures !PollAhead(Next(s, e))
  {
    if Enabled(s, e) {
      if ByLoop(e) { QuietLoopStep(s, e); }
      else if e.Rebuild? { QuietRebuild(s); }
      else { QuietOtherStep(s, e); }
    }
  }

  // ----- a scheduler with a poll ahead can get there -----

  ghost predicate SomeSync(s: System) {
    exists g, i :: At(s, g, i, Syncing)
  }

  /** Without a further publication, `events` end in a scheduled poll. */
  ghost predicate Reaches(s: System, events: seq<Event>)
    requires Formed(s)
  {
    SomeSync(Run(s, events)) && forall k :: 0 <= k < |events| ==> !events[k].Publish?
  }

  lemma StepFirst(s: System, e: Event, rest: seq<Event>)
    requires Formed(s) && !e.Publish? && Reaches(Next(s, e), rest)
    ensures Reaches(s, [e] + rest)
  {
    RunOne(s, e, 0, 0);
    RunAppend(s, [e], rest, 0, 0);
  }

  lemma FromPermit(s: System, g: nat, i: nat) returns (events: seq<Event>)
    requires Formed(s) && At(s, g, i, WantPermit)
    ensures Reaches(s, events)
  {
    if j :| 0 <= j < |s.generations[g].loops| && s.generations[g].loops[j].Syncing? {
      assert At(s, g, j, Syncing);
      events := [];
    } else {
      var s' := Next(s, Acquire(g, i));
      assert At(s', g, i, Syncing);
      assert Run(s', []) == s';
      StepFirst(s, Acquire(g, i), []);
      events := [Acquire(g, i)] + [];
    }
  }

  lemma FromSleep(s: System, g: nat, i: nat) returns (events: seq<Event>)
    requires Formed(s) && (At(s, g, i, Sleeping) || (At(s, g, i, Entering) && Interval(s, g, i) == 0))
    ensures Reaches(s, events)
  {
    assert At(Next(s, Fire(g, i)), g, i, WantPermit);
    var rest := FromPermit(Next(s, Fire(g, i)), g, i);
    StepFirst(s, Fire(g, i), rest);
    events := [Fire(g, i)] + rest;
  }

  lemma FromEntering(s: System, g: nat, i: nat) returns (events: seq<Event>)
    requires Formed(s) && At(s, g, i, Entering)
    requires Interval(s, g, i) == 0 || !Changed(s, s.generations[g].version)
    ensures Reaches(s, events)
  {
    if Interval(s, g, i) == 0 {
      events := FromSleep(s, g, i);
    } else {
      assert At(Next(s, Enter(g, i)), g, i, Sleeping);
      var rest := FromSleep(Next(s, Enter(g, i)), g, i);
      StepFirst(s, Enter(g, i), rest);
      events := [Enter(g, i)] + rest;
    }
  }

  lemma FromLoop(s: System, i: nat) returns (events: seq<Event>)
    requires Formed(s) && LoopAhead(s, i)
    ensures Reaches(s, events)
  {
    var g := |s.generations| - 1;
    match Current(s).loops[i]
    case Syncing => assert At(s, g, i, Syncing); events := [];
    case WantPermit => events := FromPermit(s, g, i);
    case Sleeping => events := FromSleep(s, g, i);
    case Entering => events := FromEntering(s, g, i);
  }

  /** The manager starts the last library once the old loops are gone. */
  lemma FromManager(s: System) returns (events: seq<Event>)
    requires Formed(s) && Inv(s) && RebuildAhead(s) && AllExited(Current(s))
    ensures Reaches(s, events)
    decreases s.manager.Watching?
  {
    if s.manager.Watching? {
      StepKeepsInv(s, Notice);
      SameOutlook(s, Next(s, Notice));
      var rest := FromManager(Next(s, Notice));
      StepFirst(s, Notice, rest);
      events := [Notice] + rest;
    } else {
      var s' := Next(s, Rebuild);
      var i: nat :| WillStir(s, i);
      assert At(s', |s.generations|, i, Entering);
      var rest := FromEntering(s', |s.generations|, i);
      StepFirst(s, Rebuild, rest);
      events := [Rebuild] + rest;
    }
  }

  /** The old loops leave one after the other. */
  lemma {:induction false} FromDraining(s: System, k: nat) returns (events: seq<Event>)
    requires Formed(s) && Inv(s) && RebuildAhead(s) && k <= |Current(s).loops|
    requires forall i :: 0 <= i < k ==> Current(s).loops[i].Exited?
    requires forall i :: k <= i < |Current(s).loops| ==> Current(s).loops[i].Exited? || Current(s).loops[i].Entering?
    ensures Reaches(s, events)
    decreases |Current(s).loops| - k
  {
    if k == |Current(s).loops| {
      events := FromManager(s);
    } else if Current(s).loops[k].Exited? {
      events := FromDraining(s, k + 1);
    } else {
      var e := Enter(|s.generations| - 1, k);
      StepKeepsInv(s, e);
      SameOutlook(s, Next(s, e));
      var rest := FromDraining(Next(s, e), k + 1);
      StepFirst(s, e, rest);
      events := [e] + rest;
    }
  }

  lemma ReachSync(s: System) returns (events: seq<Event>)
    requires Formed(s) && Inv(s) && PollAhead(s)
    ensures Reaches(s, events)
  {
    if i: nat :| LoopAhead(s, i) {
      events := FromLoop(s, i);
    } else {
      forall i | 0 <= i < |Current(s).loops| ensures Current(s).loops[i].Exited? || Current(s).loops[i].Entering? {
        assert !LoopAhead(s, i);
      }
      events := FromDraining(s, 0);
    }
  }

  lemma {:induction false} QuietRun(s: System, events: seq<Event>)
    requires Formed(s) && Inv(s) && !PollAhead(s) && forall k :: 0 <= k < |events| ==> !events[k].Publish?
    ensures Inv(Run(s, events)) && !PollAhead(Run(s, events))
  {
    if events != [] {
      var n := |events| - 1;
      QuietRun(s, events[..n]);
      StepKeepsInv(Run(s, events[..n]), events[n]);
      QuietStays(Run(s, events[..n]), events[n]);
    }
  }

  /** From any reachable state a scheduled poll can still happen without a further publication
      exactly when one is ahead. */
  lemma PollAheadExactly(s: System)
    requires Formed(s) && Inv(s)
    ensures (exists events :: Reaches(s, events)) <==> PollAhead(s)
  {
    if PollAhead(s) { var events := ReachSync(s); }
    if events :| Reaches(s, events) && !PollAhead(s) {
      QuietRun(s, events);
      var g, i :| At(Run(s, events), g, i, Syncing);
      SyncingIsAhead(Run(s, events), g, i);
    }
  }
}
